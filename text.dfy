/**
 * Characters and small scanners shared by every extractor.
 *
 * The Python code matches text with Python regular expressions. Each pattern is
 * modelled here by hand-written scanners over `string` (= `seq<char>`):
 *   - `\s` is `IsSpace`, Python's `str.isspace()` set (the same set `\s`
 *     matches in a `str` pattern and `str.strip()` removes);
 *   - `\w` and `[A-Za-z0-9_]` are `IsWord` (ASCII only);
 *   - `re.IGNORECASE` is `MatchesCI` against a lower-case keyword (ASCII case folding);
 *   - `\b` is `BoundaryAt`;
 *   - a lazy `.*?X` is "the nearest following X" (`FindCI`).
 */
module Text {

  datatype Option<T> = None | Some(value: T) {
    /** `dict.get(key, default)` on the value: the value, or `default` when there is none. */
    function GetOr(default: T): T {
      if Some? then value else default
    }
  }

  /** Python's `str.isspace()` set, which is also what `\s` matches in a `str` pattern. */
  predicate IsSpace(c: char) {
    || c == ' '
    || ('\t' <= c <= '\r')
    || ('\U{1C}' <= c <= '\U{1F}')
    || c == '\U{85}' || c == '\U{A0}' || c == '\U{1680}'
    || ('\U{2000}' <= c <= '\U{200A}')
    || c == '\U{2028}' || c == '\U{2029}' || c == '\U{202F}' || c == '\U{205F}' || c == '\U{3000}'
  }

  /** `\w` restricted to ASCII, which is also the class `[A-Za-z0-9_]`. */
  predicate IsWord(c: char) {
    ('a' <= c <= 'z') || ('A' <= c <= 'Z') || ('0' <= c <= '9') || c == '_'
  }

  predicate IsUpperLetter(c: char) { 'A' <= c <= 'Z' }
  predicate IsLowerLetter(c: char) { 'a' <= c <= 'z' }

  function Lower(c: char): (r: char)
    ensures !IsUpperLetter(r)
    ensures IsWord(r) == IsWord(c) && IsSpace(r) == IsSpace(c)
    ensures !IsUpperLetter(c) ==> r == c
  {
    if IsUpperLetter(c) then (c as int + 32) as char else c
  }

  function Upper(c: char): (r: char)
    ensures !IsLowerLetter(r)
    ensures IsWord(r) == IsWord(c) && IsSpace(r) == IsSpace(c)
    ensures !IsLowerLetter(c) ==> r == c
  {
    if IsLowerLetter(c) then (c as int - 32) as char else c
  }

  /** `str.lower()` on ASCII letters. */
  function LowerStr(s: string): (r: string)
    ensures |r| == |s|
    ensures forall i :: 0 <= i < |s| ==> r[i] == Lower(s[i])
  {
    seq(|s|, i requires 0 <= i < |s| => Lower(s[i]))
  }

  /** `str.upper()` on ASCII letters. */
  function UpperStr(s: string): (r: string)
    ensures |r| == |s|
    ensures forall i :: 0 <= i < |s| ==> r[i] == Upper(s[i])
  {
    seq(|s|, i requires 0 <= i < |s| => Upper(s[i]))
  }

  predicate IsUpperStr(s: string) { forall i :: 0 <= i < |s| ==> !IsLowerLetter(s[i]) }
  predicate IsLowerStr(s: string) { forall i :: 0 <= i < |s| ==> !IsUpperLetter(s[i]) }
  predicate IsWordStr(s: string) { |s| > 0 && forall i :: 0 <= i < |s| ==> IsWord(s[i]) }

  /** The positions from `a` up to, not including, `b` of `s` form a word. */
  predicate WordBetween(s: string, a: nat, b: nat) {
    a <= b <= |s| && IsWordStr(s[a .. b])
  }

  /** The positions from `a` up to, not including, `b` of `s` spell `x`. */
  predicate Spells(s: string, a: nat, b: nat, x: string) {
    a <= b <= |s| && s[a .. b] == x
  }

  /** Upper-cases every string of a list (`[x.upper() for x in xs]`). */
  function UpperAll(xs: seq<string>): (r: seq<string>)
    ensures |r| == |xs|
    ensures forall i :: 0 <= i < |xs| ==> r[i] == UpperStr(xs[i])
  {
    seq(|xs|, i requires 0 <= i < |xs| => UpperStr(xs[i]))
  }

  /** Lower-cases every string of a list (`[x.lower() for x in xs]`). */
  function LowerAll(xs: seq<string>): (r: seq<string>)
    ensures |r| == |xs|
    ensures forall i :: 0 <= i < |xs| ==> r[i] == LowerStr(xs[i])
  {
    seq(|xs|, i requires 0 <= i < |xs| => LowerStr(xs[i]))
  }

  lemma UpperAllAppend(a: seq<string>, b: seq<string>)
    ensures UpperAll(a + b) == UpperAll(a) + UpperAll(b)
  {
  }

  /** `s.startswith(prefix)`. */
  predicate StartsWith(s: string, prefix: string) {
    |prefix| <= |s| && s[..|prefix|] == prefix
  }

  /** The lower-case keyword `kw` occurs at `p`, letters compared case-insensitively. */
  predicate MatchesCI(s: string, p: nat, kw: string) {
    p + |kw| <= |s| && forall i :: 0 <= i < |kw| ==> Lower(s[p + i]) == kw[i]
  }

  /** A match survives cutting the text around it. */
  lemma MatchesCISlice(s: string, i: nat, j: nat, p: nat, kw: string)
    requires i <= p && p + |kw| <= j <= |s| && MatchesCI(s, p, kw)
    ensures MatchesCI(s[i .. j], p - i, kw)
  {
    forall k | 0 <= k < |kw| ensures Lower(s[i .. j][p - i + k]) == kw[k] {
      assert s[i .. j][p - i + k] == s[p + k];
    }
  }

  /** `\b` at position `p`: exactly one of the neighbouring characters is a word character. */
  predicate BoundaryAt(s: string, p: nat)
    requires p <= |s|
  {
    (p > 0 && IsWord(s[p - 1])) != (p < |s| && IsWord(s[p]))
  }

  /** `\bkw\b`: the keyword as a whole word. */
  predicate WordAt(s: string, p: nat, kw: string)
    requires p <= |s|
  {
    BoundaryAt(s, p) && MatchesCI(s, p, kw) && BoundaryAt(s, p + |kw|)
  }

  /** End of the (possibly empty) run of whitespace starting at `p`: a greedy `\s*`. */
  function SkipSpace(s: string, p: nat): (q: nat)
    requires p <= |s|
    ensures p <= q <= |s|
    ensures forall k :: p <= k < q ==> IsSpace(s[k])
    ensures q < |s| ==> !IsSpace(s[q])
    decreases |s| - p
  {
    if p < |s| && IsSpace(s[p]) then SkipSpace(s, p + 1) else p
  }

  /** The whitespace run from `p` ends at `q` when `q` is the first non-space at or after `p`. */
  lemma {:induction false} SkipSpaceIs(s: string, p: nat, q: nat)
    requires p <= q <= |s|
    requires forall k :: p <= k < q ==> IsSpace(s[k])
    requires q < |s| ==> !IsSpace(s[q])
    ensures SkipSpace(s, p) == q
    decreases q - p
  {
    if p < q { SkipSpaceIs(s, p + 1, q); }
  }

  /** End of the (possibly empty) run of word characters starting at `p`: a greedy `\w*`. */
  function SkipWord(s: string, p: nat): (q: nat)
    requires p <= |s|
    ensures p <= q <= |s|
    ensures forall k :: p <= k < q ==> IsWord(s[k])
    ensures q < |s| ==> !IsWord(s[q])
    decreases |s| - p
  {
    if p < |s| && IsWord(s[p]) then SkipWord(s, p + 1) else p
  }

  /** The word run from `p` ends at `q` when `q` is the first non-word character at or after `p`. */
  lemma {:induction false} SkipWordIs(s: string, p: nat, q: nat)
    requires p <= q <= |s|
    requires forall k :: p <= k < q ==> IsWord(s[k])
    requires q < |s| ==> !IsWord(s[q])
    ensures SkipWord(s, p) == q
    decreases q - p
  {
    if p < q { SkipWordIs(s, p + 1, q); }
  }

  /** A keyword cannot match where its first letter does not. */
  lemma NoMatchAt(s: string, p: nat, kw: string)
    requires kw != [] && p < |s| && Lower(s[p]) != kw[0]
    ensures !MatchesCI(s, p, kw)
  {
  }

  /** No occurrence of `kw` (case-insensitive) starts at a position from `a` up to `b` (exclusive). */
  predicate NoMatchIn(s: string, a: nat, b: nat, kw: string) {
    forall k :: a <= k < b ==> !MatchesCI(s, k, kw)
  }

  /** A match in a slice is a match in the whole text. */
  lemma MatchesCIUnslice(s: string, lo: nat, hi: nat, k: nat, kw: string)
    requires lo <= hi <= |s| && MatchesCI(s[lo .. hi], k, kw)
    ensures MatchesCI(s, lo + k, kw)
  {
    forall j | 0 <= j < |kw| ensures Lower(s[lo + k + j]) == kw[j] {
      assert s[lo .. hi][k + j] == s[lo + k + j];
    }
  }

  /** Cutting the text around a stretch without `kw` leaves it without one. */
  lemma NoMatchSlice(s: string, lo: nat, hi: nat, a: nat, b: nat, kw: string)
    requires lo <= hi <= |s| && NoMatchIn(s, lo + a, lo + b, kw)
    ensures NoMatchIn(s[lo .. hi], a, b, kw)
  {
    forall k | a <= k < b && MatchesCI(s[lo .. hi], k, kw) ensures false {
      MatchesCIUnslice(s, lo, hi, k, kw);
    }
  }

  /** The nearest occurrence of `kw` (case-insensitive) at or after `p`: what a lazy `.*?kw` stops at. */
  function FindCI(s: string, p: nat, kw: string): (r: Option<nat>)
    requires p <= |s|
    ensures r.Some? ==> p <= r.value && MatchesCI(s, r.value, kw)
    ensures r.Some? ==> forall k :: p <= k < r.value ==> !MatchesCI(s, k, kw)
    ensures r.None? ==> forall k :: p <= k <= |s| ==> !MatchesCI(s, k, kw)
    decreases |s| - p
  {
    if MatchesCI(s, p, kw) then Some(p)
    else if p == |s| then None
    else FindCI(s, p + 1, kw)
  }

  /** Start of the trailing whitespace of `s[a..]`. */
  function TrimEnd(s: string, a: nat): (b: nat)
    requires a <= |s|
    ensures a <= b <= |s|
    ensures forall k :: b <= k < |s| ==> IsSpace(s[k])
    ensures b > a ==> !IsSpace(s[b - 1])
    decreases |s| - a
  {
    if |s| == a then a
    else if IsSpace(s[|s| - 1]) then TrimEnd(s[..|s| - 1], a)
    else |s|
  }

  /** Python's `str.strip()`: leading and trailing whitespace removed. */
  function Strip(s: string): (r: string)
    ensures |r| <= |s|
    ensures r != [] ==> !IsSpace(r[0]) && !IsSpace(r[|r| - 1])
    ensures r == [] <==> forall k :: 0 <= k < |s| ==> IsSpace(s[k])
  {
    var a := SkipSpace(s, 0);
    var b := TrimEnd(s, a);
    s[a .. b]
  }

  /** Stripping only removes characters. */
  lemma StripKeepsOut(s: string, c: char)
    requires c !in s
    ensures c !in Strip(s)
  {
    var a := SkipSpace(s, 0);
    var b := TrimEnd(s, a);
    forall k | 0 <= k < b - a ensures s[a .. b][k] != c {
      assert s[a .. b][k] == s[a + k];
    }
  }

  /** Stripping twice is stripping once. */
  lemma StripIdempotent(s: string)
    ensures Strip(Strip(s)) == Strip(s)
  {
    var r := Strip(s);
    if r != [] {
      SkipSpaceIs(r, 0, 0);
      assert TrimEnd(r, 0) == |r|;
      assert r[0..|r|] == r;
    }
  }
}
