/**
 * Python's `str.split(sep)` on a one-character separator and `sep.join(xs)`,
 * which undo each other.
 */
module Lines {
  import opened Collections

  /** `s.split(sep)`: the pieces between separators; `""` gives `[""]`. */
  function SplitOn(s: string, sep: char): (r: seq<string>)
    ensures |r| >= 1
    ensures forall k :: 0 <= k < |r| ==> sep !in r[k]
    decreases |s|
  {
    if sep !in s then [s]
    else
      var k := FirstIndex(s, sep);
      assert sep !in s[.. k] by {
        forall j | 0 <= j < k ensures s[.. k][j] != sep { assert s[.. k][j] == s[j]; }
      }
      [s[.. k]] + SplitOn(s[k + 1..], sep)
  }

  /** `sep.join(xs)`. */
  function JoinWith(xs: seq<string>, sep: string): (r: string)
    decreases |xs|
  {
    if |xs| == 0 then []
    else if |xs| == 1 then xs[0]
    else xs[0] + sep + JoinWith(xs[1..], sep)
  }

  /** Joining the pieces with the separator gives back the text. */
  lemma {:induction false} JoinSplit(s: string, sep: char)
    ensures JoinWith(SplitOn(s, sep), [sep]) == s
    decreases |s|
  {
    if sep in s {
      var k := FirstIndex(s, sep);
      var rest := SplitOn(s[k + 1..], sep);
      JoinSplit(s[k + 1..], sep);
      assert SplitOn(s, sep) == [s[.. k]] + rest;
      assert ([s[.. k]] + rest)[1..] == rest;
      assert s == s[.. k] + [sep] + s[k + 1..];
    }
  }

  /** Splitting a join of separator-free pieces gives back the pieces. */
  lemma {:induction false} SplitJoin(xs: seq<string>, sep: char)
    requires |xs| >= 1
    requires forall k :: 0 <= k < |xs| ==> sep !in xs[k]
    ensures SplitOn(JoinWith(xs, [sep]), sep) == xs
    decreases |xs|
  {
    if |xs| > 1 {
      var tail := JoinWith(xs[1..], [sep]);
      assert JoinWith(xs, [sep]) == xs[0] + [sep] + tail;
      SplitOnCons(xs[0], tail, sep);
      SplitJoin(xs[1..], sep);
      assert xs == [xs[0]] + xs[1..];
    }
  }

  /** A separator-free first piece is split off first. */
  lemma SplitOnCons(a: string, b: string, sep: char)
    requires sep !in a
    ensures SplitOn(a + [sep] + b, sep) == [a] + SplitOn(b, sep)
  {
    var s := a + [sep] + b;
    FirstSeparator(a, b, sep);
    assert s[..|a|] == a;
    assert s[|a| + 1..] == b;
  }

  /** The first separator of `a + [sep] + b` is the one after `a`. */
  lemma FirstSeparator(a: string, b: string, sep: char)
    requires sep !in a
    ensures sep in a + [sep] + b && FirstIndex(a + [sep] + b, sep) == |a|
  {
    var s := a + [sep] + b;
    assert s[|a|] == sep;
    assert forall j :: 0 <= j < |a| ==> s[j] == a[j];
  }

  /** Joining one more piece appends the separator and the piece. */
  lemma {:induction false} JoinSnoc(xs: seq<string>, x: string, sep: string)
    requires xs != []
    ensures JoinWith(xs + [x], sep) == JoinWith(xs, sep) + sep + x
    decreases |xs|
  {
    if |xs| == 1 {
      assert (xs + [x])[1..] == [x];
    } else {
      JoinSnoc(xs[1..], x, sep);
      assert (xs + [x])[1..] == xs[1..] + [x];
    }
  }
}
