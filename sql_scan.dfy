/**
 * The two regular expressions the dependency analyzer and the table/field
 * extractor share: the SELECT statement finder
 *
 *   \bSELECT\b.*?\bFROM\b.*?(?=\bINTO\b|\bWHERE\b|\bORDER\b|\bGROUP\b|\bHAVING\b|\bENDSELECT\b|$)
 *
 * (case-insensitive, `.` matching line breaks) and the FROM/JOIN table
 * reference
 *
 *   \b(?:FROM|(?:(?:LEFT|RIGHT|FULL|INNER|CROSS)\s*(?:OUTER\s*)?)?JOIN)\s+([A-Za-z0-9_]+)
 *
 * Both are deterministic once backtracking is worked out, so each becomes a
 * scanner that returns the leftmost match and a `findall` loop over it.
 */
module SqlScan {
  import opened Text

  /** The positions from `start` up to, not including, `end` of a string. */
  datatype Span = Span(start: nat, end: nat)

  predicate SpanIn(s: string, sp: Span) {
    sp.start <= sp.end <= |s|
  }

  /** The nearest whole-word, case-insensitive occurrence of `kw` at or after `p`. */
  function FindWord(s: string, p: nat, kw: string): (r: Option<nat>)
    requires p <= |s|
    ensures r.Some? ==> p <= r.value <= |s| && WordAt(s, r.value, kw)
    ensures r.Some? ==> forall k :: p <= k < r.value ==> !WordAt(s, k, kw)
    ensures r.None? ==> forall k :: p <= k <= |s| ==> !WordAt(s, k, kw)
    decreases |s| - p
  {
    if WordAt(s, p, kw) then Some(p)
    else if p == |s| then None
    else FindWord(s, p + 1, kw)
  }

  /** The nearest whole-word occurrence from `p` is at `f` when `kw` occurs there and nowhere in between. */
  lemma {:induction false} FindWordIs(s: string, p: nat, f: nat, kw: string)
    requires p <= f <= |s| && WordAt(s, f, kw)
    requires forall k :: p <= k < f ==> !WordAt(s, k, kw)
    ensures FindWord(s, p, kw) == Some(f)
    decreases f - p
  {
    if p < f { FindWordIs(s, p + 1, f, kw); }
  }

  /** `$` without MULTILINE: the end of the text, or just before a final `'\n'`. */
  predicate DollarAt(s: string, e: nat) {
    e == |s| || (e + 1 == |s| && s[e] == '\n')
  }

  /** One of the words at which a SELECT statement stops. */
  predicate StopWordAt(s: string, e: nat)
    requires e <= |s|
  {
    || WordAt(s, e, "into") || WordAt(s, e, "where") || WordAt(s, e, "order")
    || WordAt(s, e, "group") || WordAt(s, e, "having") || WordAt(s, e, "endselect")
  }

  /** No stop word starts at a character that is not the first letter of one. */
  lemma NoStopWordAt(s: string, p: nat)
    requires p < |s|
    requires var c := Lower(s[p]); c != 'i' && c != 'w' && c != 'o' && c != 'g' && c != 'h' && c != 'e'
    ensures !StopWordAt(s, p)
  {
    NoMatchAt(s, p, "into");
    NoMatchAt(s, p, "where");
    NoMatchAt(s, p, "order");
    NoMatchAt(s, p, "group");
    NoMatchAt(s, p, "having");
    NoMatchAt(s, p, "endselect");
  }

  /** Where the lazy `.*?` before the look-ahead stops: the nearest stop word or `$`. */
  function StopAt(s: string, p: nat): (e: nat)
    requires p <= |s|
    ensures p <= e <= |s|
    ensures StopWordAt(s, e) || DollarAt(s, e)
    ensures forall k :: p <= k < e ==> !StopWordAt(s, k) && !DollarAt(s, k)
    decreases |s| - p
  {
    if StopWordAt(s, p) || DollarAt(s, p) then p else StopAt(s, p + 1)
  }

  /** The SELECT statement matched at `i`, if the pattern matches there. */
  function SelectAt(s: string, i: nat): (r: Option<Span>)
    requires i <= |s|
    ensures r.Some? ==> r.value.start == i && WordAt(s, i, "select") && i + 6 <= r.value.end <= |s|
    ensures r.Some? ==> exists f :: i + 6 <= f && f + 4 <= r.value.end && WordAt(s, f, "from")
    ensures r.None? ==> !WordAt(s, i, "select") || forall f :: i + 6 <= f <= |s| ==> !WordAt(s, f, "from")
  {
    if !WordAt(s, i, "select") then None
    else
      match FindWord(s, i + 6, "from")
      case None => None
      case Some(f) => Some(Span(i, StopAt(s, f + 4)))
  }

  /** `finditer` of the SELECT pattern from position `p`: non-overlapping, left to right. */
  function SelectSpans(s: string, p: nat): (r: seq<Span>)
    requires p <= |s|
    ensures forall k :: 0 <= k < |r| ==>
      p <= r[k].start && r[k].start + 6 <= r[k].end && SpanIn(s, r[k]) && WordAt(s, r[k].start, "select")
    ensures forall k :: 0 <= k < |r| - 1 ==> r[k].end <= r[k + 1].start
    ensures (forall i :: p <= i <= |s| ==> SelectAt(s, i).None?) ==> r == []
    decreases |s| - p
  {
    if p == |s| then []
    else
      match SelectAt(s, p)
      case None => SelectSpans(s, p + 1)
      case Some(sp) =>
        assert sp.end > p;
        [sp] + SelectSpans(s, sp.end)
  }

  /** The texts of the matched SELECT statements (what `findall` returns). */
  function SelectStatements(s: string): (r: seq<string>)
    ensures |r| == |SelectSpans(s, 0)|
    ensures forall k :: 0 <= k < |r| ==> |r[k]| >= 6 && MatchesCI(r[k], 0, "select")
  {
    Texts(s, SelectSpans(s, 0))
  }

  /** The texts of SELECT spans of `s`. */
  function Texts(s: string, sps: seq<Span>): (r: seq<string>)
    requires forall k :: 0 <= k < |sps| ==>
      sps[k].start + 6 <= sps[k].end && SpanIn(s, sps[k]) && WordAt(s, sps[k].start, "select")
    ensures |r| == |sps|
    ensures forall k :: 0 <= k < |r| ==> |r[k]| >= 6 && MatchesCI(r[k], 0, "select")
  {
    if sps == [] then []
    else
      var sp := sps[0];
      assert sp.start + 6 <= sp.end && SpanIn(s, sp) && WordAt(s, sp.start, "select");
      MatchesCISlice(s, sp.start, sp.end, sp.start, "select");
      [s[sp.start .. sp.end]] + Texts(s, sps[1..])
  }

  /** Text without a whole-word SELECT has no SELECT statement. */
  lemma NoSelectNoStatements(s: string)
    requires forall i :: 0 <= i <= |s| ==> !WordAt(s, i, "select")
    ensures SelectStatements(s) == []
  {
  }

  // ---------------------------------------------------------------------
  // FROM / JOIN table references

  /** End of `LEFT|RIGHT|FULL|INNER|CROSS` followed by `\s*(?:OUTER\s*)?JOIN`, if that matches at `i`. */
  function QualifiedJoinAt(t: string, i: nat, kw: string): (r: Option<nat>)
    requires i <= |t|
    ensures r.Some? ==> i + |kw| + 4 <= r.value <= |t| && MatchesCI(t, i, kw) && MatchesCI(t, r.value - 4, "join")
    ensures r.Some? ==> i + 4 <= r.value
  {
    if !MatchesCI(t, i, kw) then None
    else
      var j := SkipSpace(t, i + |kw|);
      if MatchesCI(t, j, "outer") && MatchesCI(t, SkipSpace(t, j + 5), "join") then Some(SkipSpace(t, j + 5) + 4)
      else if MatchesCI(t, j, "join") then Some(j + 4)
      else None
  }

  /** End of the FROM or JOIN keyword group at `i` (which must be a word boundary). */
  function JoinKeywordAt(t: string, i: nat): (r: Option<nat>)
    requires i <= |t|
    ensures r.Some? ==> BoundaryAt(t, i) && i + 4 <= r.value <= |t|
    ensures r.Some? ==> MatchesCI(t, i, "from") || MatchesCI(t, r.value - 4, "join")
  {
    if !BoundaryAt(t, i) then None
    else if MatchesCI(t, i, "from") then Some(i + 4)
    else
      var q := QualifiedJoin(t, i);
      if q.Some? then q
      else if MatchesCI(t, i, "join") then Some(i + 4)
      else None
  }

  /** The first of `LEFT`, `RIGHT`, `FULL`, `INNER`, `CROSS` whose qualified JOIN matches at `i`. */
  function QualifiedJoin(t: string, i: nat): (r: Option<nat>)
    requires i <= |t|
    ensures r.Some? ==> i + 4 <= r.value <= |t| && MatchesCI(t, r.value - 4, "join")
  {
    var l := QualifiedJoinAt(t, i, "left");
    if l.Some? then l
    else
      var r := QualifiedJoinAt(t, i, "right");
      if r.Some? then r else LaterQualifiedJoin(t, i)
  }

  /** The same for the last three qualifiers, `FULL`, `INNER` and `CROSS`. */
  function LaterQualifiedJoin(t: string, i: nat): (r: Option<nat>)
    requires i <= |t|
    ensures r.Some? ==> i + 4 <= r.value <= |t| && MatchesCI(t, r.value - 4, "join")
  {
    var f := QualifiedJoinAt(t, i, "full");
    if f.Some? then f
    else
      var n := QualifiedJoinAt(t, i, "inner");
      if n.Some? then n else QualifiedJoinAt(t, i, "cross")
  }

  /** The table name captured by `FROM|…JOIN` `\s+` `([A-Za-z0-9_]+)` at `i`. */
  function TableRefAt(t: string, i: nat): (r: Option<Span>)
    requires i <= |t|
    ensures r.Some? ==> JoinKeywordAt(t, i).Some? && JoinKeywordAt(t, i).value < r.value.start
    ensures r.Some? ==> r.value.start < r.value.end <= |t|
    ensures r.Some? ==> WordBetween(t, r.value.start, r.value.end)
    ensures r.Some? ==> forall k :: JoinKeywordAt(t, i).value <= k < r.value.start ==> IsSpace(t[k])
  {
    match JoinKeywordAt(t, i)
    case None => None
    case Some(k) =>
      var a := SkipSpace(t, k);
      if a > k && a < |t| && IsWord(t[a]) then Some(Span(a, SkipWord(t, a))) else None
  }

  /** `findall` of the table pattern from `p`: the captured names, in text order. */
  function TableNames(t: string, p: nat): (r: seq<string>)
    requires p <= |t|
    ensures forall k :: 0 <= k < |r| ==> IsWordStr(r[k])
    decreases |t| - p
  {
    if p == |t| then []
    else
      match TableRefAt(t, p)
      case None => TableNames(t, p + 1)
      case Some(sp) => [t[sp.start .. sp.end]] + TableNames(t, sp.end)
  }
}
