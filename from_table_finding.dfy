/**
 * The table named right after FROM.
 *
 * The split pattern's second group starts after `FROM\s+`, and the table
 * pattern needs a FROM or JOIN keyword in front of a name, so run over that
 * group it never sees the first table. On `SELECT matnr FROM mara` the
 * extractor as written reports `MATNR` as unmapped and no `MARA` entry at
 * all. Running the table pattern over the FROM clause itself (the corrected
 * reading, `fromClause = true`) registers the table and, as it is the only
 * alias, gives it the unqualified field.
 */
module FromTableFinding {
  import opened Text
  import opened Collections
  import opened SqlScan
  import opened Lines
  import opened SelectParts
  import opened TablesAndFields

  /** The word right after the FROM keyword and its whitespace, when the split pattern matches. */
  function FromTable(block: string): (r: Option<string>)
    ensures r.Some? ==> IsWordStr(r.value)
  {
    match SplitSearch(block, 0)
    case None => None
    case Some(m) =>
      var a := SkipSpace(block, m.from + 4);
      if a < |block| && IsWord(block[a]) then Some(block[a .. SkipWord(block, a)]) else None
  }

  /** With the corrected FROM text, the table after FROM is the block's first reference. */
  lemma FromTableFirst(block: string)
    requires FromTable(block).Some?
    ensures Parts(block, true).Some?
    ensures Parts(block, true).value.refs != []
    ensures Parts(block, true).value.refs[0].table == FromTable(block).value
  {
    var m := SplitSearch(block, 0).value;
    SplitFrom(block, m);
    var a := SkipSpace(block, m.from + 4);
    assert FromTable(block) == Some(block[a .. SkipWord(block, a)]);
    FromClauseFirstTable(block, m);
    CorrectedRefs(block, m);
  }

  /** Where the split pattern matches, FROM and its whitespace are in place. */
  lemma SplitFrom(block: string, m: SplitMatch)
    requires SplitSearch(block, 0) == Some(m)
    ensures m.from + 4 < |block| && FromKeywordAt(block, m.from)
  {
  }

  /** With the corrected FROM text, the references are the table pattern's hits on the FROM clause. */
  lemma CorrectedRefs(block: string, m: SplitMatch)
    requires SplitSearch(block, 0) == Some(m)
    ensures Parts(block, true).Some?
    ensures Parts(block, true).value.refs == TableAliasHits(FromClauseText(block, m), 0)
  {
  }

  /** The FROM clause's first reference is the word after FROM. */
  lemma FromClauseFirstTable(s: string, m: SplitMatch)
    requires m.from + 4 < |s| && FromKeywordAt(s, m.from)
    requires SkipSpace(s, m.from + 4) < |s| && IsWord(s[SkipSpace(s, m.from + 4)])
    ensures var a := SkipSpace(s, m.from + 4); var hits := TableAliasHits(FromClauseText(s, m), 0);
      hits != [] && hits[0].table == s[a .. SkipWord(s, a)]
  {
    var f := m.from;
    var b := FromClauseEnd(s, m);
    var a := SkipSpace(s, f + 4);
    var e := SkipWord(s, a);
    FromClauseFacts(s, m);
    ClauseFirstHit(s, FromClauseText(s, m), f, b, a, e);
  }

  /** The FROM clause's text, and what stands at its start: FROM, whitespace, a word. */
  lemma FromClauseFacts(s: string, m: SplitMatch)
    requires m.from + 4 < |s| && FromKeywordAt(s, m.from)
    requires SkipSpace(s, m.from + 4) < |s| && IsWord(s[SkipSpace(s, m.from + 4)])
    ensures var f := m.from; var b := FromClauseEnd(s, m); var a := SkipSpace(s, f + 4); var e := SkipWord(s, a);
      && f + 4 < a < e <= b <= |s|
      && MatchesCI(s, f, "from")
      && (forall k :: f + 4 <= k < a ==> IsSpace(s[k]))
      && (forall k :: a <= k < e ==> IsWord(s[k]))
      && (e < |s| ==> !IsWord(s[e]))
      && FromClauseText(s, m) == s[f .. b]
  {
    FromClauseBounds(s, m);
  }

  lemma ClauseFirstHit(s: string, t: string, f: nat, b: nat, a: nat, e: nat)
    requires f + 4 < a < e <= b <= |s| && t == s[f .. b]
    requires MatchesCI(s, f, "from")
    requires forall k :: f + 4 <= k < a ==> IsSpace(s[k])
    requires forall k :: a <= k < e ==> IsWord(s[k])
    requires e < |s| ==> !IsWord(s[e])
    ensures TableAliasHits(t, 0) != [] && TableAliasHits(t, 0)[0].table == s[a .. e]
  {
    ClauseChars(s, f, b, a, e);
    FromStartsFirstHit(t, a - f, e - f);
  }

  /** The clause `s[f .. b]` read on its own: FROM, whitespace, then the word `s[a .. e]`. */
  lemma ClauseChars(s: string, f: nat, b: nat, a: nat, e: nat)
    requires f + 4 < a < e <= b <= |s|
    requires MatchesCI(s, f, "from")
    requires forall k :: f + 4 <= k < a ==> IsSpace(s[k])
    requires forall k :: a <= k < e ==> IsWord(s[k])
    requires e < |s| ==> !IsWord(s[e])
    ensures var r := s[f .. b];
      && MatchesCI(r, 0, "from")
      && (forall k :: 4 <= k < a - f ==> IsSpace(r[k]))
      && (forall k :: a - f <= k < e - f ==> IsWord(r[k]))
      && (e - f < |r| ==> !IsWord(r[e - f]))
      && r[a - f .. e - f] == s[a .. e]
  {
    var r := s[f .. b];
    SliceOfSlice(s, f, b, a - f, e - f);
    MatchesCISlice(s, f, b, f, "from");
    forall k | 4 <= k < a - f ensures IsSpace(r[k]) {
      assert r[k] == s[f + k];
    }
    forall k | a - f <= k < e - f ensures IsWord(r[k]) {
      assert r[k] == s[f + k];
    }
    assert e - f < |r| ==> r[e - f] == s[e];
  }

  /** A text starting with `FROM`, whitespace and a word: that word is the first table found. */
  lemma FromStartsFirstHit(r: string, q: nat, e: nat)
    requires MatchesCI(r, 0, "from")
    requires 4 < q < e <= |r|
    requires forall k :: 4 <= k < q ==> IsSpace(r[k])
    requires forall k :: q <= k < e ==> IsWord(r[k])
    requires e < |r| ==> !IsWord(r[e])
    ensures TableAliasHits(r, 0) != [] && TableAliasHits(r, 0)[0].table == r[q .. e]
  {
    FromStartsTableRef(r, q, e);
    FirstTableAliasHit(r, Span(q, e));
  }

  /** The word after FROM lies inside the stripped FROM clause. */
  lemma FromClauseBounds(s: string, m: SplitMatch)
    requires m.from + 4 < |s| && FromKeywordAt(s, m.from)
    requires SkipSpace(s, m.from + 4) < |s| && IsWord(s[SkipSpace(s, m.from + 4)])
    ensures var a := SkipSpace(s, m.from + 4); var b := FromClauseEnd(s, m);
      m.from + 4 < a < b && SkipWord(s, a) <= b
  {
    var f := m.from;
    var b := FromClauseEnd(s, m);
    var a := SkipSpace(s, f + 4);
    assert IsSpace(s[f + 4]);
    assert !IsSpace(s[a]);
    if b < |s| {
      assert IsSpace(s[b]);
      SkipWordStops(s, a, b);
    }
  }

  /** The word run stops at the first non-word character. */
  lemma {:induction false} SkipWordStops(s: string, p: nat, b: nat)
    requires p <= b < |s| && !IsWord(s[b])
    ensures SkipWord(s, p) <= b
    decreases b - p
  {
    if p < b && IsWord(s[p]) {
      SkipWordStops(s, p + 1, b);
    }
  }

  /** A text starting with `FROM`, whitespace and a word: that word is the table reference at 0. */
  lemma FromStartsTableRef(r: string, q: nat, e: nat)
    requires MatchesCI(r, 0, "from")
    requires 4 < q < e <= |r|
    requires forall k :: 4 <= k < q ==> IsSpace(r[k])
    requires forall k :: q <= k < e ==> IsWord(r[k])
    requires e < |r| ==> !IsWord(r[e])
    ensures TableRefAt(r, 0) == Some(Span(q, e))
  {
    assert IsWord(r[0]) by {
      assert Lower(r[0]) == "from"[0] == 'f';
      assert IsWord(Lower(r[0]));
    }
    assert JoinKeywordAt(r, 0) == Some(4);
    assert !IsSpace(r[q]) by { assert IsWord(r[q]); }
    SkipSpaceIs(r, 4, q);
    SkipWordIs(r, q, e);
  }

  /** Corrected: the table after FROM in any block has an entry in the result. */
  lemma FromTableRegistered(blocks: seq<string>, i: nat)
    requires i < |blocks| && FromTable(blocks[i]).Some?
    ensures UpperStr(FromTable(blocks[i]).value) in Fold(blocks, true).tableToFields
  {
    FromTableFirst(blocks[i]);
    var p := Parts(blocks[i], true).value;
    assert p.refs[0] in p.refs;
    assert UpperStr(FromTable(blocks[i]).value) in BlockTables(blocks[i], true);
    TablesPerBlockAt(blocks, true, i);
    FoldKeys(blocks, true, UpperStr(FromTable(blocks[i]).value));
  }

  // ---------------------------------------------------------------------
  // The example `SELECT matnr FROM mara`
  //
  // The lemmas from here on evaluate the extractor on this one statement,
  // step by step; they exist only to support `AsWrittenMissesFromTable` and
  // `CorrectedRegistersFromTable` at the end.

  const Example: string := "SELECT matnr FROM mara"

  lemma ExampleChars()
    ensures Example[6] == ' ' && Example[7] == 'm' && Example[12] == ' ' && Example[13] == 'F'
    ensures Example[17] == ' ' && Example[18] == 'm' && |Example| == 22
  {
  }

  lemma ExampleSelect()
    ensures WordAt(Example, 0, "select")
  {
  }

  lemma ExampleFromWord()
    ensures FindWord(Example, 6, "from") == Some(13)
  {
    var s := Example;
    ExampleChars();
    assert s[8] == 'a' && s[9] == 't' && s[10] == 'n' && s[11] == 'r';
    assert s[14] == 'R' && s[15] == 'O' && s[16] == 'M';
    FromWordAfterMatnr(s);
  }

  /** In a text shaped like the example, the first whole-word FROM after SELECT is at 13. */
  lemma FromWordAfterMatnr(s: string)
    requires |s| == 22 && s[6] == ' ' && s[7] == 'm' && s[8] == 'a' && s[9] == 't' && s[10] == 'n' && s[11] == 'r'
    requires s[12] == ' ' && s[13] == 'F' && s[14] == 'R' && s[15] == 'O' && s[16] == 'M' && s[17] == ' '
    ensures FindWord(s, 6, "from") == Some(13)
  {
    assert MatchesCI(s, 13, "from");
    forall k | 6 <= k < 13 ensures !WordAt(s, k, "from") {
      NoMatchAt(s, k, "from");
    }
    FindWordIs(s, 6, 13, "from");
  }

  lemma ExampleStop()
    ensures StopAt(Example, 17) == 22
  {
    ExampleChars();
    NoStopWordAt(Example, 17);
    NoStopWordAt(Example, 18);
  }

  lemma ExampleStatements()
    ensures SelectStatements(Example) == [Example]
  {
    ExampleSelect();
    ExampleFromWord();
    ExampleStop();
    assert SelectAt(Example, 0) == Some(Span(0, 22));
    assert SelectSpans(Example, 0) == [Span(0, 22)];
    assert Example[0..22] == Example;
  }

  lemma ExampleSkips()
    ensures SkipSpace(Example, 6) == 7 && SkipSpace(Example, 12) == 13
  {
    ExampleChars();
    SkipSpaceIs(Example, 6, 7);
    SkipSpaceIs(Example, 12, 13);
  }

  lemma ExampleFromAt()
    ensures FromKeywordAt(Example, 13) && FromAfter(Example, 12)
  {
    ExampleChars();
    ExampleSkips();
  }

  lemma ExampleFirstFrom()
    ensures FirstFrom(Example, 7) == Some(12)
  {
    ExampleChars();
    ExampleFromAt();
    var s := Example;
    assert s[8] == 'a' && s[9] == 't' && s[10] == 'n' && s[11] == 'r';
    FirstFromAfterMatnr(s);
  }

  lemma FirstFromAfterMatnr(s: string)
    requires |s| == 22 && FromAfter(s, 12)
    requires s[7] == 'm' && s[8] == 'a' && s[9] == 't' && s[10] == 'n' && s[11] == 'r'
    ensures FirstFrom(s, 7) == Some(12)
  {
    forall k | 7 <= k < 12 ensures !FromAfter(s, k) {
      assert !IsSpace(s[k]);
    }
    FirstFromIs(s, 7, 12);
  }

  /** The field group stops at `f` when the FROM keyword follows there and nowhere before. */
  lemma {:induction false} FirstFromIs(s: string, q: nat, f: nat)
    requires q <= f < |s| && FromAfter(s, f)
    requires forall k :: q <= k < f ==> !FromAfter(s, k)
    ensures FirstFrom(s, q) == Some(f)
    decreases f - q
  {
    if q < f { FirstFromIs(s, q + 1, f); }
  }

  lemma ExampleSplit()
    ensures SplitSearch(Example, 0) == Some(SplitMatch(0, 7, 12, 13))
  {
    ExampleSelect();
    ExampleSkips();
    ExampleFirstFrom();
    ExampleFromAt();
    assert SplitAt(Example, 0) == Some(SplitMatch(0, 7, 12, 13));
  }

  lemma ExampleTexts()
    ensures FieldsText(Example, SplitMatch(0, 7, 12, 13)) == "matnr"
    ensures FromJoinText(Example, SplitMatch(0, 7, 12, 13)) == "mara"
    ensures FromKeywordAt(Example, 13)
    ensures FromClauseText(Example, SplitMatch(0, 7, 12, 13)) == "FROM mara"
  {
    ExampleFieldsText();
    ExampleFromJoinText();
    ExampleFromAt();
    ExampleClauseText();
  }

  lemma ExampleFieldsText()
    ensures FieldsText(Example, SplitMatch(0, 7, 12, 13)) == "matnr"
  {
    var f := Example[7..12];
    assert f == "matnr";
    MatnrStrip();
  }

  lemma ExampleFromJoinText()
    ensures FromJoinText(Example, SplitMatch(0, 7, 12, 13)) == "mara"
  {
    var s := Example;
    assert s[17] == ' ' && s[18] == 'm';
    SkipSpaceIs(s, 17, 18);
    var g := s[18..];
    assert g == "mara";
    assert SkipSpace(g, 0) == 0;
    assert TrimEnd(g, 0) == 4;
  }

  lemma ExampleClauseText()
    ensures FromKeywordAt(Example, 13)
    ensures FromClauseText(Example, SplitMatch(0, 7, 12, 13)) == "FROM mara"
  {
    var s := Example;
    ExampleFromAt();
    assert TrimEnd(s, 13) == 22;
    assert s[13..22] == "FROM mara";
  }

  /** As written the table pattern sees only `mara`, which has no FROM or JOIN in front. */
  lemma MaraNoTables()
    ensures TableAliasHits("mara", 0) == []
  {
    var t := "mara";
    assert TableRefAt(t, 3).None?;
    assert TableRefAt(t, 2).None?;
    assert TableRefAt(t, 1).None?;
    assert Lower(t[0]) == 'm';
    assert !MatchesCI(t, 0, "from") by { NoMatchAt(t, 0, "from"); }
    assert !MatchesCI(t, 0, "join") by { NoMatchAt(t, 0, "join"); }
    assert !MatchesCI(t, 0, "left") by { NoMatchAt(t, 0, "left"); }
    assert TableRefAt(t, 0).None?;
  }

  lemma FromMaraTables()
    ensures TableAliasHits("FROM mara", 0) == [TableRef("mara", "")]
  {
    var t := "FROM mara";
    assert MatchesCI(t, 0, "from");
    assert JoinKeywordAt(t, 0) == Some(4);
    assert t[4] == ' ' && t[5] == 'm';
    assert SkipSpace(t, 5) == 5;
    assert SkipSpace(t, 4) == 5;
    assert SkipWord(t, 9) == 9;
    assert SkipWord(t, 5) == 9;
    assert TableRefAt(t, 0) == Some(Span(5, 9));
    assert SkipSpace(t, 9) == 9;
    assert AliasAt(t, 9).None?;
    assert t[5..9] == "mara";
  }

  lemma MatnrNoFieldRefs()
    ensures FieldRefs("matnr", 0) == []
  {
    var t := "matnr";
    assert SkipWord(t, 5) == 5;
    assert SkipWord(t, 0) == 5;
    assert FieldRefAt(t, 0).None?;
    assert FieldRefAt(t, 1).None?;
    assert FieldRefAt(t, 2).None?;
    assert FieldRefAt(t, 3).None?;
    assert FieldRefAt(t, 4).None?;
  }

  lemma MatnrNotQualified()
    ensures RemoveQualified("matnr", 0) == "matnr"
  {
    var t := "matnr";
    assert SkipWord(t, 5) == 5;
    assert forall i :: 0 <= i < 5 ==> SkipWord(t, i) == 5;
    assert RemoveQualified(t, 4) == "r";
    assert RemoveQualified(t, 3) == "nr";
    assert RemoveQualified(t, 2) == "tnr";
    assert RemoveQualified(t, 1) == "atnr";
  }

  lemma MatnrStrip()
    ensures Strip("matnr") == "matnr"
  {
    var t := "matnr";
    assert SkipSpace(t, 0) == 0;
    assert TrimEnd(t, 0) == 5;
  }

  lemma MatnrNoCommaSpace()
    ensures StripCommaSpace(CollapseSpaces("matnr")) == "matnr"
  {
    var t := "matnr";
    assert |t| == 5 && t[0] == 'm' && t[4] == 'r';
    MatnrNoSpace();
    CollapseNoSpace(t);
    StripCommaSpaceNone(t);
  }

  lemma MatnrNoSpace()
    ensures forall k :: 0 <= k < 5 ==> !IsDropped("matnr"[k])
  {
    var t := "matnr";
    assert t[0] == 'm' && t[1] == 'a' && t[2] == 't' && t[3] == 'n' && t[4] == 'r';
  }

  lemma MatnrSplit()
    ensures NonEmptyStripped(SplitOn("matnr", ',')) == ["matnr"]
  {
    var t := "matnr";
    assert t[0] == 'm' && t[1] == 'a' && t[2] == 't' && t[3] == 'n' && t[4] == 'r';
    assert ',' !in t;
    MatnrStrip();
    OnePiece(t);
  }

  /** A comma-free text whose stripped form is itself splits into just that text. */
  lemma OnePiece(t: string)
    requires ',' !in t && t != [] && Strip(t) == t
    ensures NonEmptyStripped(SplitOn(t, ',')) == [t]
  {
    assert SplitOn(t, ',') == [t];
    assert [t][1..] == [];
  }

  lemma MatnrRaw()
    ensures RawCandidates("matnr") == ["matnr"]
  {
    MatnrNotQualified();
    MatnrNoCommaSpace();
    MatnrStrip();
    MatnrSplit();
  }

  lemma MatnrUpper()
    ensures UpperStr("matnr") == "MATNR"
  {
    var u := UpperStr("matnr");
    assert u[0] == 'M' && u[1] == 'A' && u[2] == 'T' && u[3] == 'N' && u[4] == 'R';
  }

  lemma MatnrClean()
    ensures CleanCandidate("matnr") == "MATNR" && Kept("matnr")
  {
    MatnrNoSpace();
    DropNone("matnr");
    MatnrUpper();
    assert "MATNR" != "DISTINCT" && "MATNR" != "SINGLE" && "MATNR" != "*";
  }

  lemma MatnrCandidates()
    ensures FinalCandidates(RawCandidates("matnr")) == ["MATNR"]
  {
    MatnrRaw();
    MatnrClean();
    assert ["matnr"][..0] == [];
  }

  lemma ExampleParts()
    ensures Parts(Example, false) == Some(BlockParts([], [], ["MATNR"]))
    ensures Parts(Example, true) == Some(BlockParts([TableRef("mara", "")], [], ["MATNR"]))
  {
    ExampleSplit();
    ExampleTexts();
    MaraNoTables();
    FromMaraTables();
    MatnrNoFieldRefs();
    MatnrCandidates();
  }

  lemma MaraUpper()
    ensures UpperStr("mara") == "MARA"
  {
    var u := UpperStr("mara");
    assert u[0] == 'M' && u[1] == 'A' && u[2] == 'R' && u[3] == 'A';
  }

  lemma ExampleFromTable()
    ensures FromTable(Example) == Some("mara")
  {
    ExampleSplit();
    ExampleMara(Example);
    FromTableIs(Example, SplitMatch(0, 7, 12, 13), 18, 22);
  }

  /** In a text ending in ` mara` at 17, the word after the space is `mara`. */
  lemma ExampleMara(s: string)
    requires s == Example
    ensures |s| == 22 && SkipSpace(s, 17) == 18 && IsWord(s[18]) && SkipWord(s, 18) == 22 && s[18..22] == "mara"
  {
    assert s[17] == ' ' && s[18] == 'm' && s[19] == 'a' && s[20] == 'r' && s[21] == 'a' && |s| == 22;
    SkipSpaceIs(s, 17, 18);
    SkipWordIs(s, 18, 22);
  }

  lemma FromTableIs(s: string, m: SplitMatch, a: nat, e: nat)
    requires SplitSearch(s, 0) == Some(m) && SkipSpace(s, m.from + 4) == a
    requires a < |s| && IsWord(s[a]) && a <= e <= |s| && SkipWord(s, a) == e
    ensures FromTable(s) == Some(s[a .. e])
  {
  }

  lemma FoldOne(block: string, fromClause: bool)
    ensures Fold([block], fromClause) == BlockStep(Acc(map[], {}), block, fromClause)
  {
    assert [block][..0] == [];
  }

  lemma ExtractedExample(fromClause: bool)
    ensures Extracted(Example, fromClause) == BlockStep(Acc(map[], {}), Example, fromClause)
  {
    ExampleStatements();
    FoldOne(Example, fromClause);
  }

  /** Without references, every candidate is unmapped. */
  lemma ApplyNoRefs(candidates: seq<string>)
    ensures Apply(Acc(map[], {}), BlockParts([], [], candidates)) == Acc(map[], ToSet(candidates))
  {
  }

  /** One reference without alias: its table gets every candidate. */
  lemma ApplyOneRef(table: string, candidates: seq<string>)
    requires candidates != []
    ensures Apply(Acc(map[], {}), BlockParts([TableRef(table, "")], [], candidates))
      == Acc(map[UpperStr(table) := ToSet(candidates)], {})
  {
    var refs := [TableRef(table, "")];
    assert refs[..0] == [];
    assert AliasMap(refs) == map[UpperStr(table) := UpperStr(table)];
    assert RegisterTables(map[], refs) == map[UpperStr(table) := {}];
    assert SoleTable(refs) == UpperStr(table);
    assert {} + ToSet(candidates) == ToSet(candidates);
  }

  lemma StepOf(acc: Acc, block: string, fromClause: bool, p: BlockParts)
    requires Parts(block, fromClause) == Some(p)
    ensures BlockStep(acc, block, fromClause) == Apply(acc, p)
  {
  }

  lemma AsWrittenStep(block: string, candidates: seq<string>)
    requires Parts(block, false) == Some(BlockParts([], [], candidates))
    ensures BlockStep(Acc(map[], {}), block, false) == Acc(map[], ToSet(candidates))
  {
    StepOf(Acc(map[], {}), block, false, BlockParts([], [], candidates));
    ApplyNoRefs(candidates);
  }

  lemma CorrectedStep(block: string, table: string, candidates: seq<string>)
    requires candidates != []
    requires Parts(block, true) == Some(BlockParts([TableRef(table, "")], [], candidates))
    ensures BlockStep(Acc(map[], {}), block, true) == Acc(map[UpperStr(table) := ToSet(candidates)], {})
  {
    StepOf(Acc(map[], {}), block, true, BlockParts([TableRef(table, "")], [], candidates));
    ApplyOneRef(table, candidates);
  }

  lemma MatnrSet()
    ensures ToSet(["MATNR"]) == {"MATNR"}
  {
  }

  /** As written: `SELECT matnr FROM mara` gives no MARA entry and an unmapped MATNR. */
  lemma AsWrittenMissesFromTable()
    ensures FromTable(Example) == Some("mara")
    ensures Extracted(Example, false) == Acc(map[], {"MATNR"})
  {
    ExampleFromTable();
    ExtractedExample(false);
    ExampleParts();
    AsWrittenStep(Example, ["MATNR"]);
    MatnrSet();
  }

  /** Corrected: the same statement gives MARA with MATNR and nothing unmapped. */
  lemma CorrectedRegistersFromTable()
    ensures Extracted(Example, true) == Acc(map["MARA" := {"MATNR"}], {})
  {
    ExtractedExample(true);
    ExampleParts();
    CorrectedStep(Example, "mara", ["MATNR"]);
    MaraUpper();
    MatnrSet();
  }
}
