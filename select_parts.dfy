/**
 * The pieces the table/field extractor cuts a SELECT statement into:
 *
 *   - the split pattern `\bSELECT\b\s+(.*?)\s+\bFROM\b\s+(.*)` (case-insensitive,
 *     `.` matching line breaks), giving the field list and the FROM/JOIN text;
 *   - the table pattern with an optional alias,
 *     `\b(?:FROM|…JOIN)\s+([A-Za-z0-9_]+)(?:\s+AS\s+([A-Za-z0-9_]+))?`;
 *   - the qualified-field pattern `\b([A-Za-z0-9_]+)~([A-Za-z0-9_]+)\b`;
 *   - the clean-up of the unqualified field candidates.
 */
module SelectParts {
  import opened Text
  import opened SqlScan
  import opened Lines

  // ---------------------------------------------------------------------
  // The split pattern

  /** `\bFROM\b\s+` at `f`: the keyword, then at least one whitespace character. */
  predicate FromKeywordAt(s: string, f: nat)
    requires f <= |s|
  {
    MatchesCI(s, f, "from") && f + 4 < |s| && IsSpace(s[f + 4])
  }

  /**
   * The lazy field group may stop at `q`: `\s+` starts there and the FROM
   * keyword follows the whitespace run (the word boundary before FROM then
   * holds because the preceding character is whitespace).
   */
  predicate FromAfter(s: string, q: nat)
    requires q <= |s|
  {
    q < |s| && IsSpace(s[q]) && FromKeywordAt(s, SkipSpace(s, q))
  }

  /** The nearest stop for the lazy field group at or after `q`. */
  function FirstFrom(s: string, q: nat): (r: Option<nat>)
    requires q <= |s|
    ensures r.Some? ==> q <= r.value < |s| && FromAfter(s, r.value)
    ensures r.Some? ==> forall k :: q <= k < r.value ==> !FromAfter(s, k)
    ensures r.None? ==> forall k :: q <= k <= |s| ==> !FromAfter(s, k)
    decreases |s| - q
  {
    if q == |s| then None
    else if FromAfter(s, q) then Some(q)
    else FirstFrom(s, q + 1)
  }

  /**
   * Where the split pattern matched: SELECT at `select`, the field group
   * from `fieldsStart` up to `fieldsEnd`, and the FROM keyword at `from`.
   */
  datatype SplitMatch = SplitMatch(select: nat, fieldsStart: nat, fieldsEnd: nat, from: nat)

  /**
   * The split pattern tried at `i`. The greedy `\s+` after SELECT first takes
   * the whole whitespace run and the lazy field group then stops at the first
   * place followed by `\s+FROM\s`. When there is none, the engine gives one
   * whitespace character back, which can only succeed with an empty field
   * group right before a FROM that directly ends the run.
   */
  function SplitAt(s: string, i: nat): (r: Option<SplitMatch>)
    requires i <= |s|
    ensures r.Some? ==> r.value.select == i && WordAt(s, i, "select")
    ensures r.Some? ==> i + 6 < r.value.fieldsStart <= r.value.fieldsEnd < r.value.from && r.value.from + 4 < |s|
    ensures r.Some? ==> forall k :: i + 6 <= k < r.value.fieldsStart ==> IsSpace(s[k])
    ensures r.Some? ==> forall k :: r.value.fieldsEnd <= k < r.value.from ==> IsSpace(s[k])
    ensures r.Some? ==> FromKeywordAt(s, r.value.from)
    ensures r.Some? ==> forall k :: r.value.fieldsStart <= k < r.value.fieldsEnd ==> !FromAfter(s, k)
    ensures !WordAt(s, i, "select") ==> r.None?
  {
    if !WordAt(s, i, "select") then None
    else
      var a := SkipSpace(s, i + 6);
      if a == i + 6 then None
      else
        match FirstFrom(s, a)
        case Some(q) => Some(SplitMatch(i, a, q, SkipSpace(s, q)))
        case None =>
          if a - 1 > i + 6 && FromKeywordAt(s, a) then Some(SplitMatch(i, a - 1, a - 1, a)) else None
  }

  /** `re.search` of the split pattern: the leftmost position from `p` where it matches. */
  function SplitSearch(s: string, p: nat): (r: Option<SplitMatch>)
    requires p <= |s|
    ensures r.Some? ==> p <= r.value.select <= |s| && SplitAt(s, r.value.select) == r
    ensures r.None? ==> forall i :: p <= i <= |s| ==> SplitAt(s, i).None?
    decreases |s| - p
  {
    var here := SplitAt(s, p);
    if here.Some? then here
    else if p == |s| then None
    else SplitSearch(s, p + 1)
  }

  /** `match_split.group(1).strip()`: the field list. */
  function FieldsText(s: string, m: SplitMatch): (r: string)
    requires m.fieldsStart <= m.fieldsEnd <= |s|
    ensures |r| <= m.fieldsEnd - m.fieldsStart
    ensures r != [] ==> !IsSpace(r[0]) && !IsSpace(r[|r| - 1])
    ensures r == [] <==> forall k :: m.fieldsStart <= k < m.fieldsEnd ==> IsSpace(s[k])
  {
    assert forall k :: 0 <= k < m.fieldsEnd - m.fieldsStart ==> s[m.fieldsStart .. m.fieldsEnd][k] == s[m.fieldsStart + k];
    Strip(s[m.fieldsStart .. m.fieldsEnd])
  }

  /** `match_split.group(2).strip()`: the text after FROM and its whitespace. */
  function FromJoinText(s: string, m: SplitMatch): (r: string)
    requires m.from + 4 <= |s|
    ensures |r| <= |s| - (m.from + 4)
    ensures r != [] ==> !IsSpace(r[0]) && !IsSpace(r[|r| - 1])
    ensures r == [] <==> forall k :: m.from + 4 <= k < |s| ==> IsSpace(s[k])
  {
    var a := SkipSpace(s, m.from + 4);
    assert forall k :: 0 <= k < |s| - a ==> s[a..][k] == s[a + k];
    Strip(s[SkipSpace(s, m.from + 4)..])
  }

  /** Where the FROM clause ends: trailing whitespace is stripped, and the keyword itself stays. */
  function FromClauseEnd(s: string, m: SplitMatch): (b: nat)
    requires m.from + 4 < |s| && FromKeywordAt(s, m.from)
    ensures m.from + 4 <= b <= |s|
    ensures forall k :: b <= k < |s| ==> IsSpace(s[k])
  {
    var kw := "from";
    assert Lower(s[m.from + 3]) == kw[3];
    TrimEnd(s, m.from)
  }

  /** The text from the FROM keyword on, stripped (it starts with FROM, so only its end moves). */
  function FromClauseText(s: string, m: SplitMatch): (r: string)
    requires m.from + 4 < |s| && FromKeywordAt(s, m.from)
    ensures MatchesCI(r, 0, "from")
  {
    var b := FromClauseEnd(s, m);
    MatchesCISlice(s, m.from, b, m.from, "from");
    s[m.from .. b]
  }

  // ---------------------------------------------------------------------
  // Tables and aliases

  /** A table reference: the table name and its alias, `""` when there is no `AS alias`. */
  datatype TableRef = TableRef(table: string, alias: string)

  /** `\s+AS\s+([A-Za-z0-9_]+)` at `w`: the alias, if the optional group matches there. */
  function AliasAt(t: string, w: nat): (r: Option<Span>)
    requires w <= |t|
    ensures r.Some? ==> w + 4 <= r.value.start < r.value.end <= |t| && WordBetween(t, r.value.start, r.value.end)
    ensures r.Some? ==> MatchesCI(t, SkipSpace(t, w), "as") && SkipSpace(t, w) > w
  {
    var a := SkipSpace(t, w);
    if a == w || !MatchesCI(t, a, "as") then None
    else
      var b := SkipSpace(t, a + 2);
      if b > a + 2 && b < |t| && IsWord(t[b]) then Some(Span(b, SkipWord(t, b))) else None
  }

  /** The table pattern at `i`: the reference and the end of the match. */
  function TableAliasAt(t: string, i: nat): (r: Option<(TableRef, nat)>)
    requires i <= |t|
    ensures r.Some? ==> TableRefAt(t, i).Some? && i < r.value.1 <= |t|
    ensures r.Some? ==> r.value.0.table == t[TableRefAt(t, i).value.start .. TableRefAt(t, i).value.end]
    ensures r.Some? ==> IsWordStr(r.value.0.table) && (r.value.0.alias == [] || IsWordStr(r.value.0.alias))
    ensures r.Some? ==> (r.value.0.alias != [] <==> AliasAt(t, TableRefAt(t, i).value.end).Some?)
    ensures TableRefAt(t, i).Some? ==> r.Some?
  {
    match TableRefAt(t, i)
    case None => None
    case Some(sp) =>
      match AliasAt(t, sp.end)
      case None => Some((TableRef(t[sp.start .. sp.end], ""), sp.end))
      case Some(al) => Some((TableRef(t[sp.start .. sp.end], t[al.start .. al.end]), al.end))
  }

  /** `findall` of the table pattern from `p`: one reference per match, in text order. */
  function TableAliasHits(t: string, p: nat): (r: seq<TableRef>)
    requires p <= |t|
    ensures forall k :: 0 <= k < |r| ==> IsWordStr(r[k].table) && (r[k].alias == [] || IsWordStr(r[k].alias))
    decreases |t| - p
  {
    if p == |t| then []
    else
      match TableAliasAt(t, p)
      case None => TableAliasHits(t, p + 1)
      case Some(m) => [m.0] + TableAliasHits(t, m.1)
  }

  /** A table pattern match at the very start is the first reference found. */
  lemma FirstTableAliasHit(t: string, sp: Span)
    requires TableRefAt(t, 0) == Some(sp)
    ensures TableAliasHits(t, 0) != [] && TableAliasHits(t, 0)[0].table == t[sp.start .. sp.end]
  {
  }

  // ---------------------------------------------------------------------
  // Qualified fields `alias~field`

  datatype FieldRef = FieldRef(alias: string, field: string)

  /** `\b([A-Za-z0-9_]+)~([A-Za-z0-9_]+)\b` at `i`: the reference and the end of the match. */
  function FieldRefAt(t: string, i: nat): (r: Option<(FieldRef, nat)>)
    requires i <= |t|
    ensures r.Some? ==> i < r.value.1 <= |t| && BoundaryAt(t, i) && BoundaryAt(t, r.value.1)
    ensures r.Some? ==> IsWordStr(r.value.0.alias) && IsWordStr(r.value.0.field)
    ensures r.Some? ==> Spells(t, i, r.value.1, r.value.0.alias + "~" + r.value.0.field)
  {
    if i == |t| || !IsWord(t[i]) || !BoundaryAt(t, i) then None
    else
      var w1 := SkipWord(t, i);
      if w1 == |t| || t[w1] != '~' then None
      else
        var w2 := SkipWord(t, w1 + 1);
        if w2 == w1 + 1 then None
        else
          assert t[i .. w2] == t[i .. w1] + "~" + t[w1 + 1 .. w2];
          Some((FieldRef(t[i .. w1], t[w1 + 1 .. w2]), w2))
  }

  /** `finditer` of the qualified-field pattern from `p`. */
  function FieldRefs(t: string, p: nat): (r: seq<FieldRef>)
    requires p <= |t|
    ensures forall k :: 0 <= k < |r| ==> IsWordStr(r[k].alias) && IsWordStr(r[k].field)
    decreases |t| - p
  {
    if p == |t| then []
    else
      match FieldRefAt(t, p)
      case None => FieldRefs(t, p + 1)
      case Some(m) => [m.0] + FieldRefs(t, m.1)
  }

  // ---------------------------------------------------------------------
  // Unqualified field candidates

  /** `[A-Za-z0-9_]+~[A-Za-z0-9_]+` at `i` (no word boundaries): the end of the match. */
  function QualifiedAt(t: string, i: nat): (r: Option<nat>)
    requires i <= |t|
    ensures r.Some? ==> i < r.value <= |t| && exists k :: i <= k < r.value && t[k] == '~'
  {
    if i == |t| || !IsWord(t[i]) then None
    else
      var w1 := SkipWord(t, i);
      if w1 == |t| || t[w1] != '~' then None
      else
        var w2 := SkipWord(t, w1 + 1);
        if w2 == w1 + 1 then None
        else
          assert t[w1] == '~';
          Some(w2)
  }

  /** `re.sub(r"[A-Za-z0-9_]+~[A-Za-z0-9_]+", "", t[p..])`. */
  function RemoveQualified(t: string, p: nat): (r: string)
    requires p <= |t|
    ensures |r| <= |t| - p
    ensures forall c :: c in r ==> c in t[p..]
    decreases |t| - p
  {
    if p == |t| then []
    else
      match QualifiedAt(t, p)
      case Some(e) =>
        var r := RemoveQualified(t, e);
        assert forall c :: c in t[e..] ==> c in t[p..] by {
          forall c | c in t[e..] ensures c in t[p..] {
            var k :| 0 <= k < |t[e..]| && t[e..][k] == c;
            assert t[e..][k] == t[e + k];
            assert t[p..][e - p + k] == t[e + k];
          }
        }
        r
      case None =>
        var r := RemoveQualified(t, p + 1);
        assert t[p..] == [t[p]] + t[p + 1..];
        [t[p]] + r
  }

  /** `re.sub(r"\s+", " ", t)`: every whitespace run becomes one space. */
  function CollapseSpaces(t: string): (r: string)
    ensures |r| <= |t|
    ensures forall k :: 0 <= k < |r| && IsSpace(r[k]) ==> r[k] == ' '
    ensures forall k :: 0 <= k < |r| - 1 ==> !(IsSpace(r[k]) && IsSpace(r[k + 1]))
    ensures r == [] <==> t == []
    decreases |t|
  {
    if t == [] then []
    else if IsSpace(t[0]) then
      var n := SkipSpace(t, 0);
      var rest := CollapseSpaces(t[n..]);
      assert rest != [] ==> !IsSpace(t[n..][0]);
      [' '] + rest
    else
      var rest := CollapseSpaces(t[1..]);
      [t[0]] + rest
  }

  /** Text without whitespace is left as it is. */
  lemma {:induction false} CollapseNoSpace(t: string)
    requires forall k :: 0 <= k < |t| ==> !IsSpace(t[k])
    ensures CollapseSpaces(t) == t
    decreases |t|
  {
    if t != [] {
      CollapseNoSpace(t[1..]);
    }
  }

  predicate IsCommaOrSpace(c: char) { c == ',' || c == ' ' }

  /** `t.strip(", ")`: commas and spaces removed from both ends. */
  function StripCommaSpace(t: string): (r: string)
    ensures |r| <= |t|
    ensures r != [] ==> !IsCommaOrSpace(r[0]) && !IsCommaOrSpace(r[|r| - 1])
    decreases |t|
  {
    if t == [] then []
    else if IsCommaOrSpace(t[0]) then StripCommaSpace(t[1..])
    else if IsCommaOrSpace(t[|t| - 1]) then StripCommaSpace(t[..|t| - 1])
    else t
  }

  /** Text with neither a comma nor a space at either end is left as it is. */
  lemma StripCommaSpaceNone(t: string)
    requires t != [] && !IsCommaOrSpace(t[0]) && !IsCommaOrSpace(t[|t| - 1])
    ensures StripCommaSpace(t) == t
  {
  }

  /** `[f.strip() for f in pieces if f.strip()]`. */
  function NonEmptyStripped(pieces: seq<string>): (r: seq<string>)
    ensures forall k :: 0 <= k < |r| ==> r[k] != []
    ensures forall k :: 0 <= k < |r| ==> exists j :: 0 <= j < |pieces| && r[k] == Strip(pieces[j])
    ensures (forall j :: 0 <= j < |pieces| ==> Strip(pieces[j]) == []) ==> r == []
  {
    if pieces == [] then []
    else
      var rest := NonEmptyStripped(pieces[1..]);
      assert forall k :: 0 <= k < |rest| ==> exists j :: 0 <= j < |pieces| && rest[k] == Strip(pieces[j]) by {
        forall k | 0 <= k < |rest| ensures exists j :: 0 <= j < |pieces| && rest[k] == Strip(pieces[j]) {
          var j :| 0 <= j < |pieces[1..]| && rest[k] == Strip(pieces[1..][j]);
          assert pieces[j + 1] == pieces[1..][j];
        }
      }
      if Strip(pieces[0]) != [] then [Strip(pieces[0])] + rest else rest
  }

  /** The candidates left after removing qualified fields and splitting on commas. */
  function RawCandidates(fields: string): (r: seq<string>)
    ensures forall k :: 0 <= k < |r| ==> r[k] != []
  {
    var cleaned := Strip(StripCommaSpace(CollapseSpaces(RemoveQualified(fields, 0))));
    NonEmptyStripped(SplitOn(cleaned, ','))
  }

  /** The parentheses around a host expression. */
  const OpenParen: char := '\U{28}'
  const CloseParen: char := '\U{29}'

  /** One of the characters of the class `[@()\s]`. */
  predicate IsDropped(c: char) { c == '@' || c == OpenParen || c == CloseParen || IsSpace(c) }

  /** `re.sub(r"[@()\s]+", "", fc)`. */
  function DropChars(fc: string): (r: string)
    ensures forall k :: 0 <= k < |r| ==> !IsDropped(r[k])
    ensures forall c :: c in r <==> c in fc && !IsDropped(c)
    decreases |fc|
  {
    if fc == [] then []
    else
      var rest := DropChars(fc[1..]);
      assert forall c :: c in fc <==> c == fc[0] || c in fc[1..];
      if IsDropped(fc[0]) then rest else [fc[0]] + rest
  }

  /** Text without `@`, parentheses or whitespace is left as it is. */
  lemma {:induction false} DropNone(t: string)
    requires forall k :: 0 <= k < |t| ==> !IsDropped(t[k])
    ensures DropChars(t) == t
    decreases |t|
  {
    if t != [] {
      DropNone(t[1..]);
    }
  }

  /** `re.sub(r"[@()\s]+", "", fc).upper()`. */
  function CleanCandidate(fc: string): (r: string)
    ensures IsUpperStr(r)
    ensures forall k :: 0 <= k < |r| ==> !IsDropped(r[k])
  {
    UpperStr(DropChars(fc))
  }

  /** `IGNORE_KEYWORDS`. */
  predicate Ignored(x: string) {
    x == "DISTINCT" || x == "SINGLE" || x == "*"
  }

  predicate Kept(fc: string) {
    CleanCandidate(fc) != [] && !Ignored(CleanCandidate(fc))
  }

  /** The cleaned candidates that survive the filter, in order. */
  function FinalCandidates(raw: seq<string>): (r: seq<string>)
    ensures forall x :: x in r <==> exists j :: 0 <= j < |raw| && Kept(raw[j]) && x == CleanCandidate(raw[j])
    ensures |r| <= |raw|
  {
    if raw == [] then []
    else
      var init := raw[..|raw| - 1];
      var last := raw[|raw| - 1];
      var r := FinalCandidates(init);
      assert forall j :: 0 <= j < |init| ==> init[j] == raw[j];
      if Kept(last) then r + [CleanCandidate(last)] else r
  }

  /** What a surviving candidate looks like. */
  lemma CandidateShape(raw: seq<string>, x: string)
    requires x in FinalCandidates(raw)
    ensures x != [] && !Ignored(x) && IsUpperStr(x)
    ensures forall k :: 0 <= k < |x| ==> !IsDropped(x[k])
  {
    var j :| 0 <= j < |raw| && Kept(raw[j]) && x == CleanCandidate(raw[j]);
  }
}
