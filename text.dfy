/**
 * The on-disk form of a buffer: its lines joined by single '\n' separators
 * when saved, and the text split back into lines when loaded.
 *
 * Characters stand for storage units: the model assumes one byte per
 * character (ASCII text), so a character position is also a byte offset.
 */
module Text {

  /** True when `s` holds no line break. */
  predicate NoBreak(s: string) {
    '\n' !in s
  }

  /** True when no line of `ls` holds a line break. */
  predicate AllNoBreak(ls: seq<string>) {
    forall k :: 0 <= k < |ls| ==> NoBreak(ls[k])
  }

  /** The lines separated by one '\n' each, with none added at the end:
      the content that `save` and `save_as` write. */
  function Join(ls: seq<string>): string
  {
    if |ls| == 0 then []
    else if |ls| == 1 then ls[0]
    else ls[0] + "\n" + Join(ls[1..])
  }

  /** The segments of `s` between its line breaks: n breaks give n + 1
      segments, empty ones included. */
  function Split(s: string): (r: seq<string>)
    ensures |r| >= 1
    ensures AllNoBreak(r)
  {
    if |s| == 0 then [[]]
    else
      var rest := Split(s[1..]);
      if s[0] == '\n' then [[]] + rest
      else [[s[0]] + rest[0]] + rest[1..]
  }

  /** The lines a loaded file is split into: the segments between line
      breaks, where a break at the very end starts no further line and the
      empty text has no line at all.  Carriage returns are ordinary
      characters here. */
  function Lines(s: string): (r: seq<string>)
    ensures r == [] <==> s == []
    ensures AllNoBreak(r)
  {
    if |s| == 0 then []
    else if s[|s| - 1] == '\n' then Split(s[..|s| - 1])
    else Split(s)
  }

  /** The text that precedes line `i` in `Join(ls)`, its separator included. */
  function Before(ls: seq<string>, i: nat): string
    requires i <= |ls|
  {
    if i == 0 then [] else Join(ls[..i]) + "\n"
  }

  /** The text that follows line `i` in `Join(ls)`, its separator included. */
  function After(ls: seq<string>, i: nat): string
    requires i < |ls|
  {
    if i == |ls| - 1 then [] else "\n" + Join(ls[i + 1..])
  }

  /** Where line `i` starts in the saved text. */
  function Offset(ls: seq<string>, i: nat): (k: nat)
    requires i < |ls|
    ensures k + |ls[i]| <= |Join(ls)|
    ensures i > 0 ==> k >= 1
    ensures i < |ls| - 1 ==> k + |ls[i]| < |Join(ls)|
  {
    JoinAround(ls, i);
    |Before(ls, i)|
  }

  // ---------------------------------------------------------------------
  // Splitting undoes joining and joining undoes splitting.
  // ---------------------------------------------------------------------

  /** A text without line breaks is a single segment. */
  lemma {:induction false} SplitNoBreak(s: string)
    requires NoBreak(s)
    ensures Split(s) == [s]
  {
    if |s| > 0 {
      SplitNoBreak(s[1..]);
      assert [s[0]] + s[1..] == s;
    }
  }

  /** The first line break of a text ends its first segment. */
  lemma {:induction false} SplitAtFirstBreak(a: string, b: string)
    requires NoBreak(a)
    ensures Split(a + "\n" + b) == [a] + Split(b)
  {
    var s := a + "\n" + b;
    if |a| == 0 {
      assert s[1..] == b;
    } else {
      assert s[0] == a[0];
      assert s[1..] == a[1..] + "\n" + b;
      SplitAtFirstBreak(a[1..], b);
      assert [a[0]] + a[1..] == a;
    }
  }

  /** Splitting the joined lines gives the lines back, provided none of them
      holds a line break. */
  lemma {:induction false} SplitJoin(ls: seq<string>)
    requires |ls| >= 1 && AllNoBreak(ls)
    ensures Split(Join(ls)) == ls
  {
    if |ls| == 1 {
      SplitNoBreak(ls[0]);
    } else {
      assert NoBreak(ls[0]);
      SplitAtFirstBreak(ls[0], Join(ls[1..]));
      SplitJoin(ls[1..]);
      assert [ls[0]] + ls[1..] == ls;
    }
  }

  /** Joining the segments of a text gives the text back. */
  lemma {:induction false} JoinSplit(s: string)
    ensures Join(Split(s)) == s
  {
    if |s| > 0 {
      var rest := Split(s[1..]);
      JoinSplit(s[1..]);
      if s[0] == '\n' {
        assert ([[]] + rest)[1..] == rest;
      } else {
        var r := [[s[0]] + rest[0]] + rest[1..];
        if |rest| > 1 {
          assert r[1..] == rest[1..];
          assert Join(rest) == rest[0] + "\n" + Join(rest[1..]);
        }
        assert [s[0]] + s[1..] == s;
      }
    }
  }

  /** Saving then loading gives back the lines, except that an empty last
      line is lost (the line break before it reads as a trailing one). */
  lemma {:induction false} LinesJoin(ls: seq<string>)
    requires AllNoBreak(ls)
    ensures Lines(Join(ls)) == if |ls| > 0 && ls[|ls| - 1] == [] then ls[..|ls| - 1] else ls
  {
    var n := |ls|;
    if n >= 2 {
      JoinAround(ls, n - 1);
      assert Join(ls) == Join(ls[..n - 1]) + "\n" + ls[n - 1];
      if ls[n - 1] == [] {
        LinesJoinEmptyLast(ls);
      } else {
        LinesJoinNonEmptyLast(ls);
      }
    } else if n == 1 && ls[0] != [] {
      LinesJoinNonEmptyLast(ls);
    }
  }

  lemma {:induction false} LinesJoinEmptyLast(ls: seq<string>)
    requires |ls| >= 2 && AllNoBreak(ls) && ls[|ls| - 1] == []
    ensures Lines(Join(ls)) == ls[..|ls| - 1]
  {
    var n := |ls|;
    var prefix := Join(ls[..n - 1]);
    JoinAround(ls, n - 1);
    assert Join(ls) == prefix + "\n";
    assert Join(ls)[..|Join(ls)| - 1] == prefix;
    assert AllNoBreak(ls[..n - 1]);
    SplitJoin(ls[..n - 1]);
  }

  lemma {:induction false} LinesJoinNonEmptyLast(ls: seq<string>)
    requires |ls| >= 1 && AllNoBreak(ls) && ls[|ls| - 1] != []
    ensures Lines(Join(ls)) == ls
  {
    var n := |ls|;
    var last := ls[n - 1];
    JoinAround(ls, n - 1);
    assert Join(ls) == Before(ls, n - 1) + last;
    assert Join(ls)[|Join(ls)| - 1] == last[|last| - 1];
    assert NoBreak(last);
    assert last[|last| - 1] in last;
    SplitJoin(ls);
  }

  /** Loading then saving gives back the text, without its trailing line
      break if it had one. */
  lemma {:induction false} JoinLines(s: string)
    ensures Join(Lines(s)) == if |s| > 0 && s[|s| - 1] == '\n' then s[..|s| - 1] else s
  {
    if |s| > 0 {
      if s[|s| - 1] == '\n' {
        JoinSplit(s[..|s| - 1]);
      } else {
        JoinSplit(s);
      }
    }
  }

  // ---------------------------------------------------------------------
  // Where each line sits in the saved text.
  // ---------------------------------------------------------------------

  /** Regrouping a concatenation of four sequences. */
  lemma {:induction false} Regroup<T>(w: seq<T>, x: seq<T>, y: seq<T>, z: seq<T>)
    ensures w + (x + y + z) == (w + x) + y + z
  {
  }

  /** The text before line `i` starts with the first line and a break. */
  lemma {:induction false} BeforeCons(ls: seq<string>, i: nat)
    requires 0 < i <= |ls|
    ensures Before(ls, i) == ls[0] + "\n" + Before(ls[1..], i - 1)
  {
    var front, tail := ls[..i], ls[1..];
    if i == 1 {
      assert Join(front) == ls[0];
    } else {
      assert front[1..] == tail[..i - 1];
      assert Join(front) == ls[0] + "\n" + Join(tail[..i - 1]);
      Regroup(ls[0], "\n", Join(tail[..i - 1]), "\n");
    }
  }

  /** The text after line `i` is unaffected by dropping the first line. */
  lemma {:induction false} AfterCons(ls: seq<string>, i: nat)
    requires 0 < i < |ls|
    ensures After(ls, i) == After(ls[1..], i - 1)
  {
  }

  /** The saved text is the text before line `i`, line `i`, and the text
      after it. */
  lemma {:induction false} JoinAround(ls: seq<string>, i: nat)
    requires i < |ls|
    ensures Join(ls) == Before(ls, i) + ls[i] + After(ls, i)
  {
    if i > 0 {
      var tail := ls[1..];
      JoinAround(tail, i - 1);
      BeforeCons(ls, i);
      AfterCons(ls, i);
      assert tail[i - 1] == ls[i];
      assert Join(ls) == (ls[0] + "\n") + Join(tail);
      Regroup(ls[0] + "\n", Before(tail, i - 1), ls[i], After(tail, i - 1));
    }
  }

  /** Line `i` sits in the saved text at its offset, with a line break
      right before it unless it is the first line and right after it unless
      it is the last. */
  lemma {:induction false} OffsetLocatesLine(ls: seq<string>, i: nat)
    requires i < |ls|
    ensures Join(ls)[Offset(ls, i)..Offset(ls, i) + |ls[i]|] == ls[i]
    ensures i > 0 ==> Join(ls)[Offset(ls, i) - 1] == '\n'
    ensures i < |ls| - 1 ==> Offset(ls, i) + |ls[i]| < |Join(ls)| && Join(ls)[Offset(ls, i) + |ls[i]|] == '\n'
  {
    var p, s, q := Before(ls, i), ls[i], After(ls, i);
    JoinAround(ls, i);
    var t := Join(ls);
    assert t == p + s + q;
    assert t[|p|..|p| + |s|] == s;
    assert i > 0 ==> t[|p| - 1] == p[|p| - 1];
    assert i < |ls| - 1 ==> t[|p| + |s|] == q[0];
  }

  /** The text before line `i` extends the text before line `i - 1` by line
      `i - 1` and its separator. */
  lemma {:induction false} BeforeExtends(ls: seq<string>, i: nat)
    requires 0 < i < |ls|
    ensures Before(ls, i) == Before(ls, i - 1) + ls[i - 1] + "\n"
  {
    var front := ls[..i];
    JoinAround(front, i - 1);
    assert front[..i - 1] == ls[..i - 1];
  }

  /** Lists that agree before position `i` have the same text before it. */
  lemma {:induction false} BeforeSamePrefix(xs: seq<string>, ys: seq<string>, i: nat)
    requires i <= |xs| && i <= |ys| && xs[..i] == ys[..i]
    ensures Before(xs, i) == Before(ys, i)
  {
  }

  /** Lists that agree after positions `i` and `j` have the same text after
      them. */
  lemma {:induction false} AfterSameSuffix(xs: seq<string>, i: nat, ys: seq<string>, j: nat)
    requires i < |xs| && j < |ys| && xs[i + 1..] == ys[j + 1..]
    ensures After(xs, i) == After(ys, j)
  {
  }

  /** The text after line `i - 1` is a separator, line `i`, and the text
      after line `i`. */
  lemma {:induction false} AfterPrevious(ls: seq<string>, i: nat)
    requires 0 < i < |ls|
    ensures After(ls, i - 1) == "\n" + ls[i] + After(ls, i)
  {
  }
}
