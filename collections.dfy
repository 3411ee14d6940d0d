/**
 * The two collection idioms of the analyzers: the "ordered-unique" list
 * (a `seen` set beside an output list, first occurrence kept) and Python's
 * `sorted()` of a set of strings (code-point order).
 */
module Collections {

  ghost predicate NoDup<T>(s: seq<T>) {
    forall i, j :: 0 <= i < j < |s| ==> s[i] != s[j]
  }

  /** Index of the first occurrence of `x` in `s`: `s.index(x)`. */
  function FirstIndex<T(==)>(s: seq<T>, x: T): (k: nat)
    requires x in s
    ensures k < |s| && s[k] == x
    ensures forall j :: 0 <= j < k ==> s[j] != x
  {
    if s[0] == x then 0 else 1 + FirstIndex(s[1..], x)
  }

  /**
   * Keeps the first occurrence of every element, in the order of first
   * appearance: what `if x not in seen: seen.add(x); ordered.append(x)` builds.
   */
  function Dedup(s: seq<string>): (r: seq<string>)
    ensures NoDup(r)
    ensures forall x :: x in r <==> x in s
    ensures forall i, j :: 0 <= i < j < |r| ==> FirstIndex(s, r[i]) < FirstIndex(s, r[j])
    decreases |s|
  {
    if s == [] then []
    else
      var init := s[..|s| - 1];
      var last := s[|s| - 1];
      var d := Dedup(init);
      FirstIndexOfPrefix(init, s);
      if last in init then d else d + [last]
  }

  /** Positions found in a prefix are the positions in the whole sequence. */
  lemma FirstIndexOfPrefix<T>(init: seq<T>, s: seq<T>)
    requires |init| < |s| && init == s[..|init|]
    ensures forall x :: x in init ==> FirstIndex(s, x) == FirstIndex(init, x)
    ensures s[|init|] !in init ==> FirstIndex(s, s[|init|]) == |init|
  {
    forall x | x in init ensures FirstIndex(s, x) == FirstIndex(init, x) {
      var k := FirstIndex(init, x);
      assert s[k] == init[k];
      assert forall j :: 0 <= j < k ==> s[j] == init[j];
      FirstIndexIs(s, x, k);
    }
    if s[|init|] !in init {
      assert forall j :: 0 <= j < |init| ==> s[j] == init[j];
      FirstIndexIs(s, s[|init|], |init|);
    }
  }

  /** The first occurrence is the position where `x` stands and stands nowhere before. */
  lemma FirstIndexIs<T>(s: seq<T>, x: T, k: nat)
    requires k < |s| && s[k] == x
    requires forall j :: 0 <= j < k ==> s[j] != x
    ensures FirstIndex(s, x) == k
  {
    var f := FirstIndex(s, x);
    assert !(f < k) && !(k < f);
  }

  /** Adding one element: it is appended exactly when it has not been seen. */
  lemma DedupSnoc(xs: seq<string>, x: string)
    ensures Dedup(xs + [x]) == if x in xs then Dedup(xs) else Dedup(xs) + [x]
  {
    assert (xs + [x])[..|xs|] == xs;
  }

  /** A duplicate-free sequence is its own de-duplication. */
  lemma {:induction false} DedupOfNoDup(s: seq<string>)
    requires NoDup(s)
    ensures Dedup(s) == s
    decreases |s|
  {
    if s != [] {
      var init := s[..|s| - 1];
      assert NoDup(init);
      DedupOfNoDup(init);
      assert s == init + [s[|s| - 1]];
      DedupSnoc(init, s[|s| - 1]);
    }
  }

  /** Continuing from an already de-duplicated prefix is de-duplicating the whole. */
  lemma {:induction false} DedupAfterDedup(xs: seq<string>, ys: seq<string>)
    ensures Dedup(Dedup(xs) + ys) == Dedup(xs + ys)
    decreases |ys|
  {
    if ys == [] {
      assert Dedup(xs) + ys == Dedup(xs) && xs + ys == xs;
      DedupOfNoDup(Dedup(xs));
    } else {
      var init, y := ys[..|ys| - 1], ys[|ys| - 1];
      DedupAfterDedup(xs, init);
      AppendSnoc(Dedup(xs), ys);
      AppendSnoc(xs, ys);
      DedupSameMembers(xs, init, y);
      DedupSnocAgree(Dedup(xs) + init, xs + init, y);
    }
  }

  lemma AppendSnoc<T>(a: seq<T>, ys: seq<T>)
    requires ys != []
    ensures a + ys == (a + ys[..|ys| - 1]) + [ys[|ys| - 1]]
  {
    assert ys == ys[..|ys| - 1] + [ys[|ys| - 1]];
  }

  lemma DedupSameMembers(xs: seq<string>, init: seq<string>, y: string)
    ensures y in Dedup(xs) + init <==> y in xs + init
  {
  }

  /** Sequences with the same de-duplication and the same members agree after one more element. */
  lemma DedupSnocAgree(a: seq<string>, b: seq<string>, y: string)
    requires Dedup(a) == Dedup(b) && (y in a <==> y in b)
    ensures Dedup(a + [y]) == Dedup(b + [y])
  {
    DedupSnoc(a, y);
    DedupSnoc(b, y);
  }

  /** Moving the next element of `b` over to the end of `a` keeps `a + b[j..]`. */
  lemma ShiftOne<T>(a: seq<T>, b: seq<T>, j: nat)
    requires j < |b|
    ensures (a + [b[j]]) + b[j + 1..] == a + b[j..]
  {
    assert b[j..] == [b[j]] + b[j + 1..];
  }

  /** The prefix of length `i + 1` is the prefix of length `i` and one more element. */
  lemma TakeSnoc<T>(s: seq<T>, i: nat)
    requires i < |s|
    ensures s[.. i + 1] == s[.. i] + [s[i]]
  {
  }

  /** A slice of a slice is a slice of the whole. */
  lemma SliceOfSlice<T>(s: seq<T>, lo: nat, hi: nat, i: nat, j: nat)
    requires lo <= hi <= |s| && i <= j <= hi - lo
    ensures s[lo .. hi][i .. j] == s[lo + i .. lo + j]
  {
    forall k | 0 <= k < j - i ensures s[lo .. hi][i .. j][k] == s[lo + i .. lo + j][k] {
      assert s[lo .. hi][i .. j][k] == s[lo + i + k];
    }
  }

  /** Appending elements never disturbs what was already collected. */
  lemma {:induction false} DedupPrefix(a: seq<string>, b: seq<string>)
    ensures |Dedup(a)| <= |Dedup(a + b)|
    ensures Dedup(a + b)[..|Dedup(a)|] == Dedup(a)
    decreases |b|
  {
    if b == [] {
      assert a + b == a;
    } else {
      var b' := b[..|b| - 1];
      DedupPrefix(a, b');
      assert (a + b)[..|a + b| - 1] == a + b';
    }
  }

  /** `r` is `ls` with some elements deleted: a subsequence. */
  ghost predicate Subsequence<T>(r: seq<T>, ls: seq<T>)
    decreases |ls|
  {
    if r == [] then true
    else if ls == [] then false
    else (r[0] == ls[0] && Subsequence(r[1..], ls[1..])) || Subsequence(r, ls[1..])
  }

  lemma {:induction false} SubsequenceOfSuffix<T>(r: seq<T>, ls: seq<T>, n: nat)
    requires n <= |ls| && Subsequence(r, ls[n..])
    ensures Subsequence(r, ls)
    decreases n
  {
    if n > 0 {
      assert ls[n..] == ls[1..][n - 1..];
      SubsequenceOfSuffix(r, ls[1..], n - 1);
    }
  }

  /** Extending both sides by the same element keeps a subsequence. */
  lemma {:induction false} SubsequenceSnocBoth<T>(r: seq<T>, ls: seq<T>, x: T)
    requires Subsequence(r, ls)
    ensures Subsequence(r + [x], ls + [x])
    decreases |ls|
  {
    if r == [] {
      assert r + [x] == [x];
      SubsequenceSingle(ls, x);
    } else if r[0] == ls[0] && Subsequence(r[1..], ls[1..]) {
      SubsequenceSnocBoth(r[1..], ls[1..], x);
      assert (r + [x])[1..] == r[1..] + [x];
      assert (ls + [x])[1..] == ls[1..] + [x];
    } else {
      SubsequenceSnocBoth(r, ls[1..], x);
      assert (ls + [x])[1..] == ls[1..] + [x];
    }
  }

  /** The last element of `ls + [x]` alone is a subsequence of it. */
  lemma {:induction false} SubsequenceSingle<T>(ls: seq<T>, x: T)
    ensures Subsequence([x], ls + [x])
    decreases |ls|
  {
    if ls != [] {
      SubsequenceSingle(ls[1..], x);
      assert (ls + [x])[1..] == ls[1..] + [x];
    } else {
      assert Subsequence([x][1..], []);
    }
  }

  /** Extending only the longer side keeps a subsequence. */
  lemma {:induction false} SubsequenceSnocSkip<T>(r: seq<T>, ls: seq<T>, x: T)
    requires Subsequence(r, ls)
    ensures Subsequence(r, ls + [x])
    decreases |ls|
  {
    if r != [] {
      assert (ls + [x])[1..] == ls[1..] + [x];
      if r[0] == ls[0] && Subsequence(r[1..], ls[1..]) {
        SubsequenceSnocSkip(r[1..], ls[1..], x);
      } else {
        SubsequenceSnocSkip(r, ls[1..], x);
      }
    }
  }

  /** The concatenation of a list of lists, in order (`"".join` / `sum(xss, [])`). */
  function Flatten<T>(xss: seq<seq<T>>): (r: seq<T>)
  {
    if xss == [] then []
    else
      var rest := Flatten(xss[1..]);
      assert forall i :: 0 < i < |xss| ==> xss[i] == xss[1..][i - 1];
      xss[0] + rest
  }

  /** Every element of the concatenation comes from one of the parts. */
  lemma {:induction false} FlattenMember<T>(xss: seq<seq<T>>, x: T)
    requires x in Flatten(xss)
    ensures exists i :: 0 <= i < |xss| && x in xss[i]
    decreases |xss|
  {
    if x !in xss[0] {
      FlattenMember(xss[1..], x);
      var i :| 0 <= i < |xss[1..]| && x in xss[1..][i];
      assert x in xss[i + 1];
    }
  }

  lemma {:induction false} FlattenAppend<T>(a: seq<seq<T>>, b: seq<seq<T>>)
    ensures Flatten(a + b) == Flatten(a) + Flatten(b)
    decreases |a|
  {
    if a == [] {
      assert a + b == b;
    } else {
      assert (a + b)[1..] == a[1..] + b;
      FlattenAppend(a[1..], b);
    }
  }

  /** Flattening one more list appends it. */
  lemma FlattenSnoc<T>(xss: seq<seq<T>>, i: nat)
    requires i < |xss|
    ensures Flatten(xss[.. i + 1]) == Flatten(xss[.. i]) + xss[i]
  {
    assert xss[.. i + 1] == xss[.. i] + [xss[i]];
    FlattenAppend(xss[.. i], [xss[i]]);
    assert Flatten([xss[i]]) == xss[i] + Flatten([]);
  }

  /** Python's `<` on `str`: lexicographic order of code points. */
  predicate LexLess(a: string, b: string)
    decreases |a|
  {
    b != [] && (a == [] || a[0] < b[0] || (a[0] == b[0] && LexLess(a[1..], b[1..])))
  }

  lemma {:induction false} LexLessIrreflexive(a: string)
    ensures !LexLess(a, a)
    decreases |a|
  {
    if a != [] { LexLessIrreflexive(a[1..]); }
  }

  lemma {:induction false} LexLessTransitive(a: string, b: string, c: string)
    requires LexLess(a, b) && LexLess(b, c)
    ensures LexLess(a, c)
    decreases |a|
  {
    if a != [] && a[0] == b[0] && b[0] == c[0] {
      LexLessTransitive(a[1..], b[1..], c[1..]);
    }
  }

  lemma {:induction false} LexLessTotal(a: string, b: string)
    requires a != b
    ensures LexLess(a, b) || LexLess(b, a)
    decreases |a|
  {
    if a != [] && b != [] && a[0] == b[0] {
      assert a == [a[0]] + a[1..] && b == [b[0]] + b[1..];
      LexLessTotal(a[1..], b[1..]);
    }
  }

  /** Strictly increasing, hence also free of duplicates. */
  predicate Sorted(s: seq<string>) {
    forall i, j :: 0 <= i < j < |s| ==> LexLess(s[i], s[j])
  }

  /** `r` is `sorted(elems)` for the set `elems`. */
  ghost predicate SortedListOf(r: seq<string>, elems: set<string>) {
    Sorted(r) && forall x :: x in r <==> x in elems
  }

  /** Inserts `x` into a sorted list at its place, unless it is already there. */
  function Insert(s: seq<string>, x: string): (r: seq<string>)
    requires Sorted(s)
    ensures Sorted(r)
    ensures forall y :: y in r <==> y in s || y == x
    decreases |s|
  {
    if s == [] then [x]
    else if s[0] == x then s
    else if LexLess(x, s[0]) then
      assert forall j :: 0 <= j < |s| ==> LexLess(x, s[j]) by {
        forall j | 0 <= j < |s| ensures LexLess(x, s[j]) {
          if j > 0 { LexLessTransitive(x, s[0], s[j]); }
        }
      }
      [x] + s
    else
      LexLessTotal(x, s[0]);
      var t := Insert(s[1..], x);
      assert forall y :: y in t ==> LexLess(s[0], y) by {
        forall y | y in t ensures LexLess(s[0], y) {
          if y != x { var j :| 0 <= j < |s[1..]| && s[1..][j] == y; assert s[j + 1] == y; }
        }
      }
      [s[0]] + t
  }

  /** `sorted()` has exactly one answer: two sorted lists of the same set are equal. */
  lemma {:induction false} SortedListUnique(a: seq<string>, b: seq<string>, elems: set<string>)
    requires SortedListOf(a, elems) && SortedListOf(b, elems)
    ensures a == b
    decreases |a|
  {
    if elems != {} {
      var e :| e in elems;
      assert e in a && e in b;
      if a[0] != b[0] {
        assert b[0] in a;
        assert a[0] in b;
        var i :| 0 <= i < |a| && a[i] == b[0];
        var j :| 0 <= j < |b| && b[j] == a[0];
        LexLessIrreflexive(a[0]);
        if i == 0 { assert false; }
        if j == 0 { assert false; }
        LexLessTransitive(a[0], b[0], a[0]);
        assert false;
      }
      var rest := elems - {a[0]};
      forall x ensures x in a[1..] <==> x in rest {
        if x in a[1..] { var k :| 0 <= k < |a[1..]| && a[1..][k] == x; assert a[k + 1] == x; LexLessIrreflexive(x); }
      }
      forall x ensures x in b[1..] <==> x in rest {
        if x in b[1..] { var k :| 0 <= k < |b[1..]| && b[1..][k] == x; assert b[k + 1] == x; LexLessIrreflexive(x); }
      }
      SortedListUnique(a[1..], b[1..], rest);
    } else {
      NoMembersEmpty(a);
      NoMembersEmpty(b);
    }
  }

  lemma NoMembersEmpty<T>(s: seq<T>)
    requires forall x :: x !in s
    ensures s == []
  {
    if s != [] {
      HeadIsMember(s);
      assert false;
    }
  }

  lemma HeadIsMember<T>(s: seq<T>)
    requires s != []
    ensures s[0] in s
  {
  }

  /** Python's `sorted(elems)` of a set of strings. */
  method SortSet(elems: set<string>) returns (r: seq<string>)
    ensures SortedListOf(r, elems)
  {
    r := [];
    var rest := elems;
    while rest != {}
      invariant rest <= elems
      invariant Sorted(r)
      invariant forall x :: x in r <==> x in elems - rest
      decreases |rest|
    {
      var x :| x in rest;
      r := Insert(r, x);
      rest := rest - {x};
    }
  }
}
