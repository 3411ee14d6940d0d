/**
 * The dependency analyzer: for each method of a class, the tables its
 * SELECT statements read, the function modules it calls, the classes it
 * instantiates or calls statically, its number of non-blank lines and its
 * source text; for the class, the interfaces it implements.
 */
module GetDependencies {
  import opened Text
  import opened Collections
  import opened Errors
  import opened SqlScan
  import RemoveComments
  import GetClassSourceCode

  /** The apostrophe around a function module's name, and the punctuation of calls and assignments. */
  const Quote: char := '\U{27}'
  const OpenParen: char := '\U{28}'
  const CloseParen: char := '\U{29}'
  const Equals: char := '='

  /** The keywords of the instantiation pattern, lower-case. */
  const KwCreate: string := "create"
  const KwObject: string := "object"
  const KwType: string := "type"
  const KwData: string := "data"
  const KwNew: string := "new"

  // ---------------------------------------------------------------------
  // extract_table_names

  /** The table names captured in one SELECT statement, after `.strip()`. */
  function StatementTables(statement: string): (r: seq<string>)
    ensures forall k :: 0 <= k < |r| ==> IsWordStr(r[k])
  {
    TableNames(Strip(statement), 0)
  }

  /** The captured names of every statement, statement by statement. */
  function TablesPerStatement(statements: seq<string>): (r: seq<seq<string>>)
    ensures |r| == |statements|
    ensures forall k :: 0 <= k < |r| ==> r[k] == StatementTables(statements[k])
  {
    seq(|statements|, k requires 0 <= k < |statements| => StatementTables(statements[k]))
  }

  /** Every captured table name of the body, in the order the two loops visit them. */
  function TableHits(body: string): (r: seq<string>)
    ensures forall x :: x in r ==> IsWordStr(x)
  {
    var per := TablesPerStatement(SelectStatements(body));
    var r := Flatten(per);
    assert forall x :: x in r ==> IsWordStr(x) by {
      forall x | x in r ensures IsWordStr(x) {
        FlattenMember(per, x);
        var i :| 0 <= i < |per| && x in per[i];
        var j :| 0 <= j < |per[i]| && per[i][j] == x;
      }
    }
    r
  }

  /** Upper-casing keeps a word a word. */
  lemma UpperWords(xs: seq<string>)
    requires forall x :: x in xs ==> IsWordStr(x)
    ensures forall x :: x in UpperAll(xs) ==> IsWordStr(x) && IsUpperStr(x)
  {
    forall x | x in UpperAll(xs) ensures IsWordStr(x) && IsUpperStr(x) {
      var k :| 0 <= k < |UpperAll(xs)| && UpperAll(xs)[k] == x;
      assert xs[k] in xs;
    }
  }

  /**
   * `extract_table_names`: the upper-cased table names after FROM or JOIN in
   * the SELECT statements, each once, in order of first appearance.
   */
  method ExtractTableNames(body: string) returns (tables: seq<string>)
    ensures tables == Dedup(UpperAll(TableHits(body)))
    ensures NoDup(tables)
    ensures forall k :: 0 <= k < |tables| ==> IsWordStr(tables[k]) && IsUpperStr(tables[k])
  {
    var statements := SelectStatements(body);
    ghost var per := TablesPerStatement(statements);
    var seen: set<string> := {};
    tables := [];
    var i := 0;
    while i < |statements|
      invariant 0 <= i <= |statements|
      invariant tables == Dedup(UpperAll(Flatten(per[.. i])))
      invariant forall x :: x in seen <==> x in tables
    {
      var query := Strip(statements[i]);
      var names := TableNames(query, 0);
      assert names == per[i];
      NoDupDedup(UpperAll(Flatten(per[.. i])));
      tables, seen := AddTables(tables, seen, names);
      NextStatement(per, i);
      i := i + 1;
    }
    assert per[.. i] == per;
    assert tables == Dedup(UpperAll(TableHits(body)));
    UpperWords(TableHits(body));
  }

  /** A de-duplicated list has no repeats. */
  lemma NoDupDedup(xs: seq<string>)
    ensures NoDup(Dedup(xs))
  {
  }

  /** The names of one more statement continue the de-duplication of those before. */
  lemma NextStatement(per: seq<seq<string>>, i: nat)
    requires i < |per|
    ensures Dedup(Dedup(UpperAll(Flatten(per[.. i]))) + UpperAll(per[i])) == Dedup(UpperAll(Flatten(per[.. i + 1])))
  {
    DedupAfterDedup(UpperAll(Flatten(per[.. i])), UpperAll(per[i]));
    UpperAllAppend(Flatten(per[.. i]), per[i]);
    FlattenSnoc(per, i);
  }

  /**
   * The inner loop of `extract_table_names`: each name's upper-case form is
   * appended unless `seen` already holds it.
   */
  method AddTables(tables0: seq<string>, seen0: set<string>, names: seq<string>) returns (tables: seq<string>, seen: set<string>)
    requires NoDup(tables0)
    requires forall x :: x in seen0 <==> x in tables0
    ensures tables == Dedup(tables0 + UpperAll(names))
    ensures forall x :: x in seen <==> x in tables
  {
    tables, seen := tables0, seen0;
    assert tables0 + UpperAll(names[..0]) == tables0;
    DedupOfNoDup(tables0);
    var j := 0;
    while j < |names|
      invariant 0 <= j <= |names|
      invariant tables == Dedup(tables0 + UpperAll(names[.. j]))
      invariant forall x :: x in seen <==> x in tables
    {
      var upper := UpperStr(names[j]);
      UpperAllSnoc(tables0, names, j);
      DedupSnoc(tables0 + UpperAll(names[.. j]), upper);
      if upper !in seen {
        seen := seen + {upper};
        tables := tables + [upper];
      }
      j := j + 1;
    }
    assert names[..|names|] == names;
  }

  /** Upper-casing one more name appends its upper-case form. */
  lemma UpperAllSnoc(pre: seq<string>, names: seq<string>, j: nat)
    requires j < |names|
    ensures pre + UpperAll(names[.. j + 1]) == (pre + UpperAll(names[.. j])) + [UpperStr(names[j])]
  {
    assert names[.. j + 1] == names[.. j] + [names[j]];
    UpperAllAppend(names[.. j], [names[j]]);
  }

  /** One more name: its upper-case form is appended unless already collected. */
  lemma DedupUpperStep(done: seq<string>, x: string)
    ensures Dedup(UpperAll(done + [x])) ==
      if UpperStr(x) in Dedup(UpperAll(done)) then Dedup(UpperAll(done)) else Dedup(UpperAll(done)) + [UpperStr(x)]
  {
    UpperAllAppend(done, [x]);
    DedupSnoc(UpperAll(done), UpperStr(x));
  }

  /** Text without a whole-word SELECT yields no table. */
  lemma NoSelectNoTables(body: string)
    requires forall i :: 0 <= i <= |body| ==> !WordAt(body, i, "select")
    ensures Dedup(UpperAll(TableHits(body))) == []
  {
    NoSelectNoStatements(body);
    assert TablesPerStatement(SelectStatements(body)) == [];
  }

  // ---------------------------------------------------------------------
  // extract_class_references

  /** `CL_\w+|ZCL_\w+` at `k`: end of the class name, if one starts there. */
  function ClassNameAt(s: string, k: nat): (r: Option<nat>)
    requires k <= |s|
    ensures r.Some? ==> k < r.value <= |s| && ClassLikeAt(s, k, r.value)
  {
    if MatchesCI(s, k, "cl_") && SkipWord(s, k + 3) > k + 3 then
      var e := SkipWord(s, k + 3);
      PrefixedWord(s, k, e, "cl_");
      Some(e)
    else if MatchesCI(s, k, "zcl_") && SkipWord(s, k + 4) > k + 4 then
      var e := SkipWord(s, k + 4);
      PrefixedWord(s, k, e, "zcl_");
      Some(e)
    else None
  }

  /** A keyword made of word characters, followed by more word characters, is a word. */
  lemma PrefixedWord(s: string, k: nat, e: nat, kw: string)
    requires k + |kw| < e <= |s| && MatchesCI(s, k, kw) && IsWordStr(kw)
    requires forall i :: k + |kw| <= i < e ==> IsWord(s[i])
    ensures IsWordStr(s[k .. e]) && MatchesCI(s[k .. e], 0, kw)
  {
    MatchesCISlice(s, k, e, k, kw);
    forall i | 0 <= i < e - k ensures IsWord(s[k .. e][i]) {
      if i < |kw| {
        assert Lower(s[k + i]) == kw[i];
      }
    }
  }

  /** A word that begins, in any letter case, with `CL_` or `ZCL_` and goes on after it. */
  predicate ClassLike(x: string) {
    IsWordStr(x) && ((|x| > 3 && MatchesCI(x, 0, "cl_")) || (|x| > 4 && MatchesCI(x, 0, "zcl_")))
  }

  /** The positions from `a` up to, not including, `b` of `s` hold a class name. */
  predicate ClassLikeAt(s: string, a: nat, b: nat) {
    a <= b <= |s| && ClassLike(s[a .. b])
  }

  /** A class name starting at `p`: its span. */
  function ClassAt(s: string, p: nat): (r: Option<Span>)
    requires p <= |s|
    ensures r.Some? ==> p == r.value.start && r.value.start < r.value.end <= |s| && ClassLikeAt(s, r.value.start, r.value.end)
  {
    if ClassNameAt(s, p).Some? then Some(Span(p, ClassNameAt(s, p).value)) else None
  }

  /** `\s+` and then a class name, from `p`. */
  function ClassAfter(s: string, p: nat): (r: Option<Span>)
    requires p <= |s|
    ensures r.Some? ==> p < r.value.start < r.value.end <= |s| && ClassLikeAt(s, r.value.start, r.value.end)
  {
    var d := SkipSpace(s, p);
    if d > p then ClassAt(s, d) else None
  }

  /**
   * `CREATE OBJECT x TYPE C` or else `CREATE OBJECT C` at `i`, for a class
   * name C: the typed form is tried first.
   */
  function CreateObjectAt(s: string, i: nat): (r: Option<Span>)
    requires MatchesCI(s, i, KwCreate)
    ensures r.Some? ==> i < r.value.start < r.value.end <= |s| && ClassLikeAt(s, r.value.start, r.value.end)
  {
    var a := SkipSpace(s, i + 6);
    if a == i + 6 || !MatchesCI(s, a, KwObject) then None
    else
      var b := SkipSpace(s, a + 6);
      if b == a + 6 then None
      else
        var w := SkipWord(s, b);
        var c := SkipSpace(s, w);
        var typed := if w > b && c > w && MatchesCI(s, c, KwType) then ClassAfter(s, c + 4) else None;
        if typed.Some? then typed else ClassAt(s, b)
  }

  /** `DATA(x) = NEW C` at `i`, for a class name C. */
  function DataNewAt(s: string, i: nat): (r: Option<Span>)
    requires MatchesCI(s, i, KwData)
    ensures r.Some? ==> i < r.value.start < r.value.end <= |s| && ClassLikeAt(s, r.value.start, r.value.end)
  {
    var a := SkipSpace(s, i + 4);
    if a == |s| || s[a] != OpenParen then None
    else
      var w := SkipWord(s, a + 1);
      if w == a + 1 || w == |s| || s[w] != CloseParen then None
      else
        var b := SkipSpace(s, w + 1);
        if b == |s| || s[b] != Equals then None
        else
          var c := SkipSpace(s, b + 1);
          if MatchesCI(s, c, KwNew) then ClassAfter(s, c + 3) else None
  }

  /**
   * The class captured by the instantiation pattern at `i`: one of
   * `CREATE OBJECT x TYPE C`, `CREATE OBJECT C`, `DATA(x) = NEW C` or
   * `NEW C`, keywords in any case.
   */
  function InstantiationAt(s: string, i: nat): (r: Option<Span>)
    requires i <= |s|
    ensures r.Some? ==> BoundaryAt(s, i) && i < r.value.start < r.value.end <= |s|
    ensures r.Some? ==> ClassLikeAt(s, r.value.start, r.value.end)
  {
    if !BoundaryAt(s, i) then None
    else if MatchesCI(s, i, KwCreate) then CreateObjectAt(s, i)
    else if MatchesCI(s, i, KwData) then DataNewAt(s, i)
    else if MatchesCI(s, i, KwNew) then ClassAfter(s, i + 3)
    else None
  }

  /** `findall` of the instantiation pattern from `p`. */
  function InstantiationHits(s: string, p: nat): (r: seq<string>)
    requires p <= |s|
    ensures forall k :: 0 <= k < |r| ==> ClassLike(r[k])
    decreases |s| - p
  {
    if p == |s| then []
    else
      match InstantiationAt(s, p)
      case None => InstantiationHits(s, p + 1)
      case Some(sp) => [s[sp.start .. sp.end]] + InstantiationHits(s, sp.end)
  }

  /** A static call at `i`: a class name, `=>`, a method name and an opening parenthesis; the class and the end of the match. */
  function StaticCallAt(s: string, i: nat): (r: Option<(Span, nat)>)
    requires i <= |s|
    ensures r.Some? ==> BoundaryAt(s, i) && r.value.0.start == i && i < r.value.0.end < r.value.1 <= |s|
    ensures r.Some? ==> ClassLikeAt(s, r.value.0.start, r.value.0.end)
  {
    if !BoundaryAt(s, i) then None
    else
      match ClassNameAt(s, i)
      case None => None
      case Some(e) =>
        var a := SkipSpace(s, e);
        if !MatchesCI(s, a, "=>") then None
        else
          var b := SkipSpace(s, a + 2);
          var w := SkipWord(s, b);
          var c := SkipSpace(s, w);
          if w > b && c < |s| && s[c] == OpenParen then Some((Span(i, e), c + 1)) else None
  }

  /** `findall` of the static-call pattern from `p`. */
  function StaticCallHits(s: string, p: nat): (r: seq<string>)
    requires p <= |s|
    ensures forall k :: 0 <= k < |r| ==> ClassLike(r[k])
    decreases |s| - p
  {
    if p == |s| then []
    else
      match StaticCallAt(s, p)
      case None => StaticCallHits(s, p + 1)
      case Some(m) => [s[m.0.start .. m.0.end]] + StaticCallHits(s, m.1)
  }

  /** Instantiations first, then static calls: `instantiations + static_calls`. */
  function ClassHits(body: string): (r: seq<string>)
    ensures forall x :: x in r ==> ClassLike(x)
  {
    InstantiationHits(body, 0) + StaticCallHits(body, 0)
  }

  /** An upper-cased class reference starts with `CL_` or `ZCL_`. */
  predicate ClassReference(x: string) {
    IsWordStr(x) && IsUpperStr(x) && ((|x| > 3 && x[..3] == "CL_") || (|x| > 4 && x[..4] == "ZCL_"))
  }

  lemma UpperClassLike(x: string)
    requires ClassLike(x)
    ensures ClassReference(UpperStr(x))
  {
    var u := UpperStr(x);
    assert forall i :: 0 <= i < |x| ==> u[i] == Upper(x[i]);
    if |x| > 3 && MatchesCI(x, 0, "cl_") {
      var kw := "cl_";
      assert Lower(x[0]) == kw[0] && Lower(x[1]) == kw[1] && Lower(x[2]) == kw[2];
      assert u[0] == 'C' && u[1] == 'L' && u[2] == '_';
      assert u[..3] == "CL_";
    } else {
      var kw := "zcl_";
      assert MatchesCI(x, 0, kw);
      assert Lower(x[0]) == kw[0] && Lower(x[1]) == kw[1] && Lower(x[2]) == kw[2] && Lower(x[3]) == kw[3];
      assert u[0] == 'Z' && u[1] == 'C' && u[2] == 'L' && u[3] == '_';
      assert u[..4] == "ZCL_";
    }
  }

  /**
   * `extract_class_references`: the upper-cased classes, each once, in order
   * of first appearance among the instantiations followed by the static calls.
   */
  method ExtractClassReferences(body: string) returns (classes: seq<string>)
    ensures classes == Dedup(UpperAll(ClassHits(body)))
    ensures NoDup(classes)
    ensures forall k :: 0 <= k < |classes| ==> ClassReference(classes[k])
  {
    var allClasses := InstantiationHits(body, 0) + StaticCallHits(body, 0);
    var seen: set<string> := {};
    classes := [];
    var i := 0;
    while i < |allClasses|
      invariant 0 <= i <= |allClasses|
      invariant classes == Dedup(UpperAll(allClasses[.. i]))
      invariant forall x :: x in seen <==> x in classes
    {
      var upper := UpperStr(allClasses[i]);
      TakeSnoc(allClasses, i);
      DedupUpperStep(allClasses[.. i], allClasses[i]);
      if upper !in seen {
        seen := seen + {upper};
        classes := classes + [upper];
      }
      i := i + 1;
    }
    assert allClasses[.. i] == allClasses;
    UpperClassReferences(allClasses);
  }

  /** Upper-casing class-like words gives class references. */
  lemma UpperClassReferences(xs: seq<string>)
    requires forall x :: x in xs ==> ClassLike(x)
    ensures forall k :: 0 <= k < |Dedup(UpperAll(xs))| ==> ClassReference(Dedup(UpperAll(xs))[k])
  {
    var d := Dedup(UpperAll(xs));
    forall k | 0 <= k < |d| ensures ClassReference(d[k]) {
      assert d[k] in UpperAll(xs);
      var m :| 0 <= m < |xs| && UpperAll(xs)[m] == d[k];
      assert xs[m] in xs;
      UpperClassLike(xs[m]);
    }
  }

  /**
   * Every class found by an instantiation comes before every class found
   * only by a static call: the de-duplicated instantiations are a prefix.
   */
  lemma InstantiationsFirst(body: string)
    ensures var inst := Dedup(UpperAll(InstantiationHits(body, 0)));
      |inst| <= |Dedup(UpperAll(ClassHits(body)))| && Dedup(UpperAll(ClassHits(body)))[..|inst|] == inst
  {
    UpperAllAppend(InstantiationHits(body, 0), StaticCallHits(body, 0));
    DedupPrefix(UpperAll(InstantiationHits(body, 0)), UpperAll(StaticCallHits(body, 0)));
  }

  // ---------------------------------------------------------------------
  // get_dependencies

  /** `\bINTERFACES\s+(\w+)` at `i`. */
  function InterfaceAt(s: string, i: nat): (r: Option<Span>)
    requires i <= |s|
    ensures r.Some? ==> BoundaryAt(s, i) && MatchesCI(s, i, "interfaces")
    ensures r.Some? ==> i + 10 < r.value.start < r.value.end <= |s| && WordBetween(s, r.value.start, r.value.end)
  {
    if !BoundaryAt(s, i) || !MatchesCI(s, i, "interfaces") then None
    else
      var a := SkipSpace(s, i + 10);
      if a > i + 10 && a < |s| && IsWord(s[a]) then Some(Span(a, SkipWord(s, a))) else None
  }

  /** `findall` of the interface pattern from `p`. */
  function InterfaceHits(s: string, p: nat): (r: seq<string>)
    requires p <= |s|
    ensures forall k :: 0 <= k < |r| ==> IsWordStr(r[k])
    decreases |s| - p
  {
    if p == |s| then []
    else
      match InterfaceAt(s, p)
      case None => InterfaceHits(s, p + 1)
      case Some(sp) => [s[sp.start .. sp.end]] + InterfaceHits(s, sp.end)
  }

  /** A character of `[/\w~]`. */
  predicate IsSlashNameChar(c: char) {
    IsWord(c) || c == '/' || c == '~'
  }

  /** End of the run of `[/\w~]` characters starting at `p`. */
  function SkipSlashName(s: string, p: nat): (q: nat)
    requires p <= |s|
    ensures p <= q <= |s|
    ensures forall k :: p <= k < q ==> IsSlashNameChar(s[k])
    ensures q < |s| ==> !IsSlashNameChar(s[q])
    decreases |s| - p
  {
    if p < |s| && IsSlashNameChar(s[p]) then SkipSlashName(s, p + 1) else p
  }

  /** `\bMETHOD\s+([/\w~]+)\s*\.` at `i`: the name and the end of the match. */
  function MethodHeaderAt(s: string, i: nat): (r: Option<(Span, nat)>)
    requires i <= |s|
    ensures r.Some? ==> BoundaryAt(s, i) && MatchesCI(s, i, "method")
    ensures r.Some? ==> i + 6 < r.value.0.start < r.value.0.end < r.value.1 <= |s|
    ensures r.Some? ==> s[r.value.1 - 1] == '.' && forall k :: r.value.0.start <= k < r.value.0.end ==> IsSlashNameChar(s[k])
  {
    if !BoundaryAt(s, i) || !MatchesCI(s, i, "method") then None
    else
      var a := SkipSpace(s, i + 6);
      var n := SkipSlashName(s, a);
      var c := SkipSpace(s, n);
      if a > i + 6 && n > a && c < |s| && s[c] == '.' then Some((Span(a, n), c + 1)) else None
  }

  /** `findall` of the method-header pattern from `p`. */
  function MethodHeaderHits(s: string, p: nat): (r: seq<string>)
    requires p <= |s|
    ensures forall k :: 0 <= k < |r| ==> r[k] != []
    decreases |s| - p
  {
    if p == |s| then []
    else
      match MethodHeaderAt(s, p)
      case None => MethodHeaderHits(s, p + 1)
      case Some(m) => [s[m.0.start .. m.0.end]] + MethodHeaderHits(s, m.1)
  }

  /** `CALL\s+FUNCTION\s+'(\w+)'` at `i`: the quoted name and the end of the match. */
  function FunctionCallAt(s: string, i: nat): (r: Option<(Span, nat)>)
    requires i <= |s|
    ensures r.Some? ==> MatchesCI(s, i, "call") && i + 4 < r.value.0.start < r.value.0.end < r.value.1 <= |s|
    ensures r.Some? ==> WordBetween(s, r.value.0.start, r.value.0.end) && s[r.value.0.start - 1] == Quote && s[r.value.0.end] == Quote
  {
    if !MatchesCI(s, i, "call") then None
    else
      var a := SkipSpace(s, i + 4);
      if a == i + 4 || !MatchesCI(s, a, "function") then None
      else
        var b := SkipSpace(s, a + 8);
        if b == a + 8 || b == |s| || s[b] != Quote then None
        else
          var w := SkipWord(s, b + 1);
          if w > b + 1 && w < |s| && s[w] == Quote then Some((Span(b + 1, w), w + 1)) else None
  }

  /** `findall` of the function-call pattern from `p`. */
  function FunctionCallHits(s: string, p: nat): (r: seq<string>)
    requires p <= |s|
    ensures forall k :: 0 <= k < |r| ==> IsWordStr(r[k])
    decreases |s| - p
  {
    if p == |s| then []
    else
      match FunctionCallAt(s, p)
      case None => FunctionCallHits(s, p + 1)
      case Some(m) => [s[m.0.start .. m.0.end]] + FunctionCallHits(s, m.1)
  }

  /**
   * `METHOD\s+<name>` at `i`, case-insensitive: METHOD, at least one
   * whitespace character, then the name. The result is where the name ends.
   */
  function BodyHead(s: string, i: nat, name: string): (r: Option<nat>)
    requires i <= |s|
    ensures r.Some? ==> i + 7 + |name| <= r.value <= |s| && MatchesCI(s, i, "method")
    ensures r.Some? ==> MatchesCI(s, r.value - |name|, LowerStr(name))
  {
    if !MatchesCI(s, i, "method") then None
    else
      var a := SkipSpace(s, i + 6);
      if a == i + 6 || !MatchesCI(s, a, LowerStr(name)) then None
      else Some(a + |name|)
  }

  /**
   * `METHOD\s+<name>.*?ENDMETHOD` at `i`, case-insensitive, without word
   * boundaries: after the head, the lazy `.*?` stops at the nearest
   * ENDMETHOD, and there is no match when none follows.
   */
  function MethodBodyAt(s: string, i: nat, name: string): (r: Option<Span>)
    requires i <= |s|
    ensures r.Some? ==> r.value.start == i && i + 16 <= r.value.end <= |s|
    ensures r.Some? ==> MatchesCI(s, i, "method") && MatchesCI(s, r.value.end - 9, "endmethod")
  {
    match BodyHead(s, i, name)
    case None => None
    case Some(n) =>
      match FindCI(s, n, "endmethod")
      case None => None
      case Some(e) => Some(Span(i, e + 9))
  }

  /**
   * The lazy `.*?` of the body pattern: a match exists exactly when an
   * ENDMETHOD follows the head, and it ends with the nearest one.
   */
  lemma MethodBodyAtNearest(s: string, i: nat, name: string)
    requires i <= |s|
    ensures var r := MethodBodyAt(s, i, name);
      r.Some? <==> BodyHead(s, i, name).Some? && !NoMatchIn(s, BodyHead(s, i, name).value, |s|, "endmethod")
    ensures var r := MethodBodyAt(s, i, name);
      r.Some? ==> BodyHead(s, i, name).value <= r.value.end - 9 && NoMatchIn(s, BodyHead(s, i, name).value, r.value.end - 9, "endmethod")
  {
    var h := BodyHead(s, i, name);
    if h.Some? {
      var f := FindCI(s, h.value, "endmethod");
    }
  }

  /** `re.search` of the body pattern: the leftmost position where it matches. */
  function MethodBodySearch(s: string, p: nat, name: string): (r: Option<Span>)
    requires p <= |s|
    ensures r.Some? ==> p <= r.value.start <= |s| && r == MethodBodyAt(s, r.value.start, name)
    decreases |s| - p
  {
    var here := MethodBodyAt(s, p, name);
    if here.Some? then here
    else if p == |s| then None
    else MethodBodySearch(s, p + 1, name)
  }

  /** No position from `a` up to, not including, `b` starts a match of the body pattern. */
  predicate NoBodyIn(s: string, a: nat, b: nat, name: string)
    requires b <= |s| + 1
  {
    forall k :: a <= k < b ==> MethodBodyAt(s, k, name).None?
  }

  /** The search finds the leftmost match: no position before its result matches, and none at all when it finds nothing. */
  lemma {:induction false} MethodBodySearchLeftmost(s: string, p: nat, name: string)
    requires p <= |s|
    ensures var r := MethodBodySearch(s, p, name);
      r.Some? ==> NoBodyIn(s, p, r.value.start, name)
    ensures var r := MethodBodySearch(s, p, name);
      r.None? ==> NoBodyIn(s, p, |s| + 1, name)
    decreases |s| - p
  {
    var r := MethodBodySearch(s, p, name);
    if MethodBodyAt(s, p, name).None? && p < |s| {
      MethodBodySearchLeftmost(s, p + 1, name);
      assert r == MethodBodySearch(s, p + 1, name);
      var b := if r.Some? then r.value.start else |s| + 1;
      NoBodyStep(s, p, b, name);
    }
  }

  /** A position without a match extends a stretch without one to its left. */
  lemma NoBodyStep(s: string, p: nat, b: nat, name: string)
    requires p < b <= |s| + 1 && p <= |s| && MethodBodyAt(s, p, name).None? && NoBodyIn(s, p + 1, b, name)
    ensures NoBodyIn(s, p, b, name)
  {
    forall k | p <= k < b ensures MethodBodyAt(s, k, name).None? {
      if k != p {
        assert p + 1 <= k < b;
      }
    }
  }

  /**
   * The text of a method's body, if the search finds one: it starts with
   * the method's head and ends with the first ENDMETHOD after the name.
   */
  function MethodBody(code: string, name: string): (r: Option<string>)
    ensures r.Some? ==> |r.value| >= 15 && MatchesCI(r.value, 0, "method") && MatchesCI(r.value, |r.value| - 9, "endmethod")
    ensures r.Some? ==> BodyHead(r.value, 0, name).Some? && BodyHead(r.value, 0, name).value <= |r.value| - 9
    ensures r.Some? ==> NoMatchIn(r.value, BodyHead(r.value, 0, name).value, |r.value| - 9, "endmethod")
  {
    match MethodBodySearch(code, 0, name)
    case None => None
    case Some(sp) =>
      BodySpan(code, name, sp);
      HeadSlice(code, sp.start, sp.end, name);
      var n := BodyHead(code, sp.start, name).value;
      NoMatchSlice(code, sp.start, sp.end, n - sp.start, sp.end - 9 - sp.start, "endmethod");
      Some(BodyText(code, sp))
  }

  /** Cutting out the span of a match keeps its head, shifted to the start. */
  lemma HeadSlice(code: string, i: nat, e: nat, name: string)
    requires i <= e <= |code| && BodyHead(code, i, name).Some? && BodyHead(code, i, name).value <= e
    ensures BodyHead(code[i .. e], 0, name) == Some(BodyHead(code, i, name).value - i)
  {
    var t := code[i .. e];
    var a := SkipSpace(code, i + 6);
    MatchesCISlice(code, i, e, i, "method");
    forall k | 6 <= k < a - i ensures IsSpace(t[k]) {
      assert t[k] == code[i + k];
    }
    if a - i < |t| {
      assert t[a - i] == code[a];
    }
    SkipSpaceIs(t, 6, a - i);
    MatchesCISlice(code, i, e, a, LowerStr(name));
  }

  /** The text of a span that starts with METHOD and ends with ENDMETHOD. */
  function BodyText(code: string, sp: Span): (r: string)
    requires sp.start + 16 <= sp.end <= |code|
    requires MatchesCI(code, sp.start, "method") && MatchesCI(code, sp.end - 9, "endmethod")
    ensures |r| >= 15 && MatchesCI(r, 0, "method") && MatchesCI(r, |r| - 9, "endmethod")
  {
    BodySlice(code, sp.start, sp.end);
    code[sp.start .. sp.end]
  }

  /** A span the body search finds starts with METHOD and ends with ENDMETHOD. */
  lemma BodySpan(code: string, name: string, sp: Span)
    requires MethodBodySearch(code, 0, name) == Some(sp)
    ensures sp.start + 16 <= sp.end <= |code|
    ensures MatchesCI(code, sp.start, "method") && MatchesCI(code, sp.end - 9, "endmethod")
    ensures BodyHead(code, sp.start, name).Some? && BodyHead(code, sp.start, name).value <= sp.end - 9
    ensures NoMatchIn(code, BodyHead(code, sp.start, name).value, sp.end - 9, "endmethod")
  {
    var i := sp.start;
    assert i <= |code| && MethodBodyAt(code, i, name) == Some(sp);
    BodyAtSpan(code, i, name);
  }

  lemma BodyAtSpan(code: string, i: nat, name: string)
    requires i <= |code| && MethodBodyAt(code, i, name).Some?
    ensures var sp := MethodBodyAt(code, i, name).value;
      sp.start + 16 <= sp.end <= |code| && MatchesCI(code, sp.start, "method") && MatchesCI(code, sp.end - 9, "endmethod")
    ensures var sp := MethodBodyAt(code, i, name).value;
      BodyHead(code, i, name).Some? && BodyHead(code, i, name).value <= sp.end - 9 &&
      NoMatchIn(code, BodyHead(code, i, name).value, sp.end - 9, "endmethod")
  {
    MethodBodyAtNearest(code, i, name);
  }

  /** Cutting out the positions from `i` up to `e` keeps the keywords at its two ends. */
  lemma BodySlice(code: string, i: nat, e: nat)
    requires i + 16 <= e <= |code|
    requires MatchesCI(code, i, "method") && MatchesCI(code, e - 9, "endmethod")
    ensures MatchesCI(code[i .. e], 0, "method") && MatchesCI(code[i .. e], e - i - 9, "endmethod")
  {
    MatchesCISlice(code, i, e, i, "method");
    MatchesCISlice(code, i, e, e - 9, "endmethod");
  }

  /** The characters at which `str.splitlines()` breaks a line. */
  predicate IsLineBreak(c: char) {
    c == '\n' || c == '\r' || c == '\U{0B}' || c == '\U{0C}' || ('\U{1C}' <= c <= '\U{1E}')
    || c == '\U{85}' || c == '\U{2028}' || c == '\U{2029}'
  }

  /** First line break at or after `p`, or `|s|`. */
  function BreakAt(s: string, p: nat): (e: nat)
    requires p <= |s|
    ensures p <= e <= |s|
    ensures forall k :: p <= k < e ==> !IsLineBreak(s[k])
    ensures e < |s| ==> IsLineBreak(s[e])
    decreases |s| - p
  {
    if p == |s| || IsLineBreak(s[p]) then p else BreakAt(s, p + 1)
  }

  /** Python's `str.splitlines()`: `\r\n` is one break, and a final break adds no empty line. */
  function PySplitLines(s: string): (lines: seq<string>)
    ensures lines == [] <==> s == []
    ensures |lines| <= |s|
    ensures forall k, j :: 0 <= k < |lines| && 0 <= j < |lines[k]| ==> !IsLineBreak(lines[k][j])
    decreases |s|
  {
    if s == [] then []
    else
      var e := BreakAt(s, 0);
      if e == |s| then [s]
      else
        [s[.. e]] + PySplitLines(s[e + BreakWidth(s, e)..])
  }

  /** How many characters the break at `e` takes: two for `\r\n`, else one. */
  function BreakWidth(s: string, e: nat): (w: nat)
    requires e < |s|
    ensures e + w <= |s|
  {
    if s[e] == '\r' && e + 1 < |s| && s[e + 1] == '\n' then 2 else 1
  }

  /** The break that `splitlines()` cuts out consists of line-break characters. */
  lemma BreakWidthBreaks(s: string, e: nat)
    requires e < |s| && IsLineBreak(s[e])
    ensures forall k :: e <= k < e + BreakWidth(s, e) ==> IsLineBreak(s[k])
  {
  }

  /** One step of `splitlines()`: the first line, then the lines after its break. */
  lemma SplitLinesCons(s: string)
    requires s != [] && BreakAt(s, 0) < |s|
    ensures PySplitLines(s) == [s[.. BreakAt(s, 0)]] + PySplitLines(s[BreakAt(s, 0) + BreakWidth(s, BreakAt(s, 0))..])
  {
    var e := BreakAt(s, 0);
    var rest := s[e + BreakWidth(s, e)..];
    assert PySplitLines(s) == [s[.. e]] + PySplitLines(rest);
  }

  /** Number of lines with something besides whitespace. */
  function NonBlankCount(lines: seq<string>): (n: nat)
    ensures n <= |lines|
  {
    if lines == [] then 0
    else (if Strip(lines[0]) != [] then 1 else 0) + NonBlankCount(lines[1..])
  }

  /**
   * `len([line for line in body.splitlines() if line.strip()])`: zero exactly
   * when the body holds nothing but whitespace.
   */
  function CodeLineCount(body: string): (n: nat)
    ensures n <= |PySplitLines(body)|
    ensures n == 0 <==> Blank(body)
  {
    var lines := PySplitLines(body);
    NonBlankCountZero(lines);
    SplitLinesBlank(body);
    NonBlankCount(lines)
  }

  /** Nothing but whitespace. */
  predicate Blank(s: string) {
    forall k :: 0 <= k < |s| ==> IsSpace(s[k])
  }

  predicate AllBlank(lines: seq<string>) {
    forall k :: 0 <= k < |lines| ==> Blank(lines[k])
  }

  lemma AllBlankCons(line: string, lines: seq<string>)
    ensures AllBlank([line] + lines) <==> Blank(line) && AllBlank(lines)
  {
    assert ([line] + lines)[0] == line;
    assert forall k :: 0 <= k < |lines| ==> ([line] + lines)[k + 1] == lines[k];
  }

  /** A text is blank exactly when its two sides around a cut are. */
  lemma BlankSplit(s: string, e: nat)
    requires e <= |s|
    ensures Blank(s) <==> Blank(s[.. e]) && Blank(s[e..])
  {
    assert s == s[.. e] + s[e..];
    if Blank(s[.. e]) && Blank(s[e..]) {
      forall k | 0 <= k < |s| ensures IsSpace(s[k]) {
        if k < e { assert s[k] == s[.. e][k]; } else { assert s[k] == s[e..][k - e]; }
      }
    }
  }

  /** Every line break is whitespace. */
  lemma BreaksAreSpace(s: string, e: nat, w: nat)
    requires e + w <= |s| && forall k :: e <= k < e + w ==> IsLineBreak(s[k])
    ensures Blank(s[e .. e + w])
  {
  }

  /** Cutting out a line break keeps a text blank, and only a blank text. */
  lemma BlankAroundBreak(s: string, e: nat, w: nat)
    requires e + w <= |s| && forall k :: e <= k < e + w ==> IsLineBreak(s[k])
    ensures Blank(s) <==> Blank(s[.. e]) && Blank(s[e + w..])
  {
    BreaksAreSpace(s, e, w);
    BlankSplit(s, e);
    BlankSplit(s[e..], w);
    assert s[e..][.. w] == s[e .. e + w] && s[e..][w..] == s[e + w..];
  }

  /** No line of `splitlines()` has anything but whitespace exactly when the text has nothing but whitespace. */
  lemma {:induction false} SplitLinesBlank(s: string)
    ensures AllBlank(PySplitLines(s)) <==> Blank(s)
    decreases |s|
  {
    if s != [] {
      var e := BreakAt(s, 0);
      if e < |s| {
        var w := BreakWidth(s, e);
        var rest := s[e + w..];
        SplitLinesCons(s);
        BreakWidthBreaks(s, e);
        calc {
          AllBlank(PySplitLines(s));
          { AllBlankCons(s[.. e], PySplitLines(rest)); }
          Blank(s[.. e]) && AllBlank(PySplitLines(rest));
          { SplitLinesBlank(rest); }
          Blank(s[.. e]) && Blank(rest);
          { BlankAroundBreak(s, e, w); }
          Blank(s);
        }
      } else {
        assert PySplitLines(s) == [s];
        assert [s][0] == s;
      }
    }
  }

  /** The count is zero exactly when every line is blank. */
  lemma {:induction false} NonBlankCountZero(lines: seq<string>)
    ensures NonBlankCount(lines) == 0 <==> AllBlank(lines)
    decreases |lines|
  {
    if lines != [] {
      NonBlankCountZero(lines[1..]);
      assert forall k :: 1 <= k < |lines| ==> lines[k] == lines[1..][k - 1];
    }
  }

  /** What the analyzer records for one method. */
  datatype MethodDeps = MethodDeps(
    codelines: nat,
    tables: seq<string>,
    functionModules: set<string>,
    classes: seq<string>,
    sourceCode: string)

  datatype Dependencies = Dependencies(interfaces: seq<string>, methods: map<string, MethodDeps>)

  /** The entry recorded for a method whose body is `body`. */
  function MethodDepsOf(body: string): (d: MethodDeps)
    ensures d.sourceCode == body
    ensures NoDup(d.tables) && NoDup(d.classes)
    ensures forall x :: x in d.functionModules <==> x in UpperAll(FunctionCallHits(body, 0))
  {
    MethodDeps(
      CodeLineCount(body),
      Dedup(UpperAll(TableHits(body))),
      (set x | x in UpperAll(FunctionCallHits(body, 0))),
      Dedup(UpperAll(ClassHits(body))),
      body)
  }

  /** The method names of the class, upper-cased, in text order, repeats included. */
  function MethodNames(code: string): (r: seq<string>)
    ensures forall k :: 0 <= k < |r| ==> r[k] != []
  {
    UpperAll(MethodHeaderHits(code, 0))
  }

  /** Each of the methods `names` has a body in `code`. */
  predicate BodiesFound(code: string, names: seq<string>) {
    forall m :: m in names ==> MethodBody(code, m).Some?
  }

  /** Every listed method has a body in `code`. */
  predicate AllBodiesFound(code: string) {
    BodiesFound(code, MethodNames(code))
  }

  /** Every entry of `deps` is what the analyzer records for that method's body. */
  predicate Recorded(code: string, deps: map<string, MethodDeps>) {
    forall m :: m in deps ==> MethodBody(code, m).Some? && deps[m] == MethodDepsOf(MethodBody(code, m).value)
  }

  lemma BodiesFoundSnoc(code: string, names: seq<string>, name: string)
    ensures BodiesFound(code, names + [name]) <==> BodiesFound(code, names) && MethodBody(code, name).Some?
  {
    assert name in names + [name];
    assert forall m :: m in names + [name] <==> m in names || m == name;
  }

  /**
   * `get_dependencies`. The class source comes from the repository already
   * stripped of comment blocks; the second stripping changes nothing.
   */
  method GetDependencies(repo: map<string, string>, className: string) returns (r: Result<Dependencies>)
    ensures className == [] ==> r == Err(ValueError("Please provide a `class_name`."))
    ensures className != [] && GetClassSourceCode.GetClassSourceCode(repo, className).Err? ==>
      r == Err(GetClassSourceCode.GetClassSourceCode(repo, className).error)
    ensures className != [] && GetClassSourceCode.GetClassSourceCode(repo, className).Ok? ==>
      var code := GetClassSourceCode.GetClassSourceCode(repo, className).value;
      (r.Ok? <==> AllBodiesFound(code))
      && (r.Err? ==> r.error == AttributeError("'NoneType' object has no attribute 'group'"))
      && (r.Ok? ==> r.value.interfaces == UpperAll(InterfaceHits(code, 0)))
      && (r.Ok? ==> forall m :: m in r.value.methods <==> m in MethodNames(code))
      && (r.Ok? ==> Recorded(code, r.value.methods))
  {
    if className == [] {
      return Err(ValueError("Please provide a `class_name`."));
    }
    var fetched := GetClassSourceCode.GetClassSourceCode(repo, className);
    if fetched.Err? {
      return Err(fetched.error);
    }
    GetClassSourceCode.ClassSourceIsStripped(repo, className);
    var code := RemoveComments.RemoveComments(fetched.value);
    assert code == fetched.value;

    var interfaces := UpperAll(InterfaceHits(code, 0));
    var methods := UpperAll(MethodHeaderHits(code, 0));
    var deps: map<string, MethodDeps> := map[];
    var i := 0;
    while i < |methods|
      invariant 0 <= i <= |methods|
      invariant forall m :: m in deps <==> m in methods[.. i]
      invariant BodiesFound(code, methods[.. i])
      invariant Recorded(code, deps)
    {
      var name := methods[i];
      var body := MethodBody(code, name);
      TakeSnoc(methods, i);
      BodiesFoundSnoc(code, methods[.. i], name);
      if body.None? {
        assert name in methods;
        return Err(AttributeError("'NoneType' object has no attribute 'group'"));
      }
      var tables := ExtractTableNames(body.value);
      var classes := ExtractClassReferences(body.value);
      var functionModules := set x | x in UpperAll(FunctionCallHits(body.value, 0));
      deps := deps[name := MethodDeps(CodeLineCount(body.value), tables, functionModules, classes, body.value)];
      i := i + 1;
    }
    assert methods[.. i] == methods;
    r := Ok(Dependencies(interfaces, deps));
  }
}
