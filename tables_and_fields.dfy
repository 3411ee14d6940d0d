/**
 * The alias-aware table/field extractor: for every SELECT statement of a
 * method body, the tables named after FROM or JOIN (with their aliases),
 * the `alias~field` references credited to the aliased table, and the
 * unqualified fields, which go to the only table when there is exactly one
 * alias and to the unmapped bucket otherwise.
 *
 * The state the extractor updates block by block is `Acc`: the table to
 * field-set dictionary and the unmapped set. `Apply` is one block's update,
 * `Fold` all of them; `ExtractTablesAndFields` computes them with the
 * loops of the Python function and is proved against them, for its own
 * reading of the FROM clause and for the corrected one.
 */
module TablesAndFields {
  import opened Text
  import opened Collections
  import opened SqlScan
  import opened SelectParts

  const UnmappedKey: string := "__UNMAPPED_FIELDS__"

  /** `table_to_fields`: each table's set of fields. */
  type TableFields = map<string, set<string>>

  /** `alias_to_table`: each upper-cased alias (or table name) to its table. */
  type Aliases = map<string, string>

  /** `table_to_fields` and `unmapped_fields`. */
  datatype Acc = Acc(tableToFields: TableFields, unmapped: set<string>)

  /** What one SELECT block contributes, before it is applied. */
  datatype BlockParts = BlockParts(refs: seq<TableRef>, fieldRefs: seq<FieldRef>, candidates: seq<string>)

  /** The key a reference is looked up by: its alias, or the table itself when it has none. */
  function AliasKey(r: TableRef): string {
    if r.alias != [] then UpperStr(r.alias) else UpperStr(r.table)
  }

  function TablesOf(refs: seq<TableRef>): set<string> {
    set r | r in refs :: UpperStr(r.table)
  }

  function AliasKeysOf(refs: seq<TableRef>): set<string> {
    set r | r in refs :: AliasKey(r)
  }

  function ToSet(xs: seq<string>): set<string> {
    set x | x in xs
  }

  lemma ToSetSnoc(xs: seq<string>, j: nat)
    requires j < |xs|
    ensures ToSet(xs[.. j + 1]) == ToSet(xs[.. j]) + {xs[j]}
  {
    assert xs[.. j + 1] == xs[.. j] + [xs[j]];
  }

  // ---------------------------------------------------------------------
  // One block

  /** The key and table sets grow by the last reference's. */
  lemma RefsSnoc(refs: seq<TableRef>)
    requires refs != []
    ensures TablesOf(refs) == TablesOf(refs[..|refs| - 1]) + {UpperStr(refs[|refs| - 1].table)}
    ensures AliasKeysOf(refs) == AliasKeysOf(refs[..|refs| - 1]) + {AliasKey(refs[|refs| - 1])}
  {
    var init, last := refs[..|refs| - 1], refs[|refs| - 1];
    assert refs == init + [last];
    assert forall r :: r in refs <==> r in init || r == last;
  }

  /** `alias_to_table` after the references of one block, one assignment per reference. */
  function AliasMap(refs: seq<TableRef>): (a2t: Aliases)
    ensures a2t.Keys == AliasKeysOf(refs)
    ensures forall k :: k in a2t ==> a2t[k] in TablesOf(refs)
    decreases |refs|
  {
    if refs == [] then map[]
    else
      var init := refs[..|refs| - 1];
      var last := refs[|refs| - 1];
      var prev := AliasMap(init);
      RefsSnoc(refs);
      prev[AliasKey(last) := UpperStr(last.table)]
  }

  /** The alias of the last reference using a key decides which table the key means. */
  lemma {:induction false} AliasMapLastWins(refs: seq<TableRef>, j: nat)
    requires j < |refs|
    requires forall j' :: j < j' < |refs| ==> AliasKey(refs[j']) != AliasKey(refs[j])
    ensures AliasKey(refs[j]) in AliasMap(refs) && AliasMap(refs)[AliasKey(refs[j])] == UpperStr(refs[j].table)
    decreases |refs|
  {
    var init, last := refs[..|refs| - 1], refs[|refs| - 1];
    assert AliasMap(refs) == AliasMap(init)[AliasKey(last) := UpperStr(last.table)];
    if j < |refs| - 1 {
      assert init[j] == refs[j];
      forall j' | j < j' < |init| ensures AliasKey(init[j']) != AliasKey(init[j]) {
        assert init[j'] == refs[j'];
      }
      AliasMapLastWins(init, j);
      assert AliasKey(last) != AliasKey(refs[j]);
    }
  }

  /** `table_to_fields` after registering the tables of one block: new tables start empty. */
  function RegisterTables(ttf: TableFields, refs: seq<TableRef>): (r: TableFields)
    ensures r.Keys == ttf.Keys + TablesOf(refs)
    ensures forall t :: t in ttf ==> r[t] == ttf[t]
    ensures forall t :: t in r && t !in ttf ==> r[t] == {}
    decreases |refs|
  {
    if refs == [] then ttf
    else
      var init := refs[..|refs| - 1];
      var last := refs[|refs| - 1];
      var prev := RegisterTables(ttf, init);
      RefsSnoc(refs);
      var table := UpperStr(last.table);
      if table in prev then prev else prev[table := {}]
  }

  /** One more reference, as the loop adds it. */
  lemma RegisterSnoc(ttf: TableFields, refs: seq<TableRef>, j: nat)
    requires j < |refs|
    ensures AliasMap(refs[.. j + 1]) == AliasMap(refs[.. j])[AliasKey(refs[j]) := UpperStr(refs[j].table)]
    ensures RegisterTables(ttf, refs[.. j + 1]) ==
      var prev := RegisterTables(ttf, refs[.. j]);
      if UpperStr(refs[j].table) in prev then prev else prev[UpperStr(refs[j].table) := {}]
  {
    assert refs[.. j + 1][.. j] == refs[.. j];
  }

  /** Every alias leads to a table that has an entry. */
  predicate AliasesRegistered(ttf: TableFields, a2t: Aliases) {
    forall k :: k in a2t ==> a2t[k] in ttf
  }

  /** The fields whose alias maps to table `t`. */
  function CreditedTo(a2t: Aliases, frefs: seq<FieldRef>, t: string): set<string> {
    set f | f in frefs && UpperStr(f.alias) in a2t && a2t[UpperStr(f.alias)] == t :: UpperStr(f.field)
  }

  /** The fields whose alias is unknown. */
  function UnknownAlias(a2t: Aliases, frefs: seq<FieldRef>): set<string> {
    set f | f in frefs && UpperStr(f.alias) !in a2t :: UpperStr(f.field)
  }

  /** The `alias~field` loop's effect on the tables: each field goes to its alias's table. */
  function CreditTables(ttf: TableFields, a2t: Aliases, frefs: seq<FieldRef>): (r: TableFields)
    requires AliasesRegistered(ttf, a2t)
    ensures r.Keys == ttf.Keys
    ensures forall t :: t in ttf ==> r[t] == ttf[t] + CreditedTo(a2t, frefs, t)
    decreases |frefs|
  {
    if frefs == [] then ttf
    else
      var prev := CreditTables(ttf, a2t, frefs[..|frefs| - 1]);
      CreditOneHolds(ttf, a2t, frefs, prev);
      CreditOne(prev, a2t, frefs[|frefs| - 1])
  }

  /** One pass of the `alias~field` loop: the field goes to its alias's table, if the alias is known. */
  function CreditOne(prev: TableFields, a2t: Aliases, f: FieldRef): TableFields
    requires AliasesRegistered(prev, a2t)
  {
    var alias := UpperStr(f.alias);
    if alias in a2t then prev[a2t[alias] := prev[a2t[alias]] + {UpperStr(f.field)}] else prev
  }

  /** Crediting the last reference extends what the earlier ones credited. */
  lemma CreditOneHolds(ttf: TableFields, a2t: Aliases, frefs: seq<FieldRef>, prev: TableFields)
    requires frefs != [] && AliasesRegistered(ttf, a2t) && prev.Keys == ttf.Keys
    requires forall t :: t in ttf ==> prev[t] == ttf[t] + CreditedTo(a2t, frefs[..|frefs| - 1], t)
    ensures AliasesRegistered(prev, a2t)
    ensures var r := CreditOne(prev, a2t, frefs[|frefs| - 1]);
      r.Keys == ttf.Keys && forall t :: t in ttf ==> r[t] == ttf[t] + CreditedTo(a2t, frefs, t)
  {
    var last := frefs[|frefs| - 1];
    var alias := UpperStr(last.alias);
    var r := CreditOne(prev, a2t, last);
    forall t | t in ttf ensures r[t] == ttf[t] + CreditedTo(a2t, frefs, t) {
      CreditedToSnoc(a2t, frefs, t);
    }
  }

  /** How the fields credited to `t` grow by the last field reference. */
  lemma CreditedToSnoc(a2t: Aliases, frefs: seq<FieldRef>, t: string)
    requires frefs != []
    ensures var init, last := frefs[..|frefs| - 1], frefs[|frefs| - 1];
      CreditedTo(a2t, frefs, t) == CreditedTo(a2t, init, t)
        + (if UpperStr(last.alias) in a2t && a2t[UpperStr(last.alias)] == t then {UpperStr(last.field)} else {})
  {
    var init, last := frefs[..|frefs| - 1], frefs[|frefs| - 1];
    assert frefs == init + [last];
    assert forall f :: f in frefs <==> f in init || f == last;
  }

  /** The `alias~field` loop's effect on the unmapped set: the fields with an unknown alias. */
  function CreditUnmapped(unmapped: set<string>, a2t: Aliases, frefs: seq<FieldRef>): (r: set<string>)
    ensures r == unmapped + UnknownAlias(a2t, frefs)
    decreases |frefs|
  {
    if frefs == [] then unmapped
    else
      var last := frefs[|frefs| - 1];
      var prev := CreditUnmapped(unmapped, a2t, frefs[..|frefs| - 1]);
      FieldRefsSnoc(a2t, frefs);
      if UpperStr(last.alias) in a2t then prev else prev + {UpperStr(last.field)}
  }

  /** How the credited and unknown sets grow by the last field reference. */
  lemma FieldRefsSnoc(a2t: Aliases, frefs: seq<FieldRef>)
    requires frefs != []
    ensures var init, last := frefs[..|frefs| - 1], frefs[|frefs| - 1];
      && (forall t :: CreditedTo(a2t, frefs, t) ==
            CreditedTo(a2t, init, t)
            + (if UpperStr(last.alias) in a2t && a2t[UpperStr(last.alias)] == t then {UpperStr(last.field)} else {}))
      && UnknownAlias(a2t, frefs) ==
           UnknownAlias(a2t, init) + (if UpperStr(last.alias) !in a2t then {UpperStr(last.field)} else {})
  {
    var init, last := frefs[..|frefs| - 1], frefs[|frefs| - 1];
    assert frefs == init + [last];
    assert forall f :: f in frefs <==> f in init || f == last;
  }

  /** The parts of one SELECT block; `None` when the split pattern finds nothing. */
  function Parts(block: string, fromClause: bool): (r: Option<BlockParts>)
    ensures SplitSearch(block, 0).None? <==> r.None?
  {
    match SplitSearch(block, 0)
    case None => None
    case Some(m) =>
      var fields := FieldsText(block, m);
      var from := if fromClause then FromClauseText(block, m) else FromJoinText(block, m);
      Some(BlockParts(TableAliasHits(from, 0), FieldRefs(fields, 0), FinalCandidates(RawCandidates(fields))))
  }

  /** With exactly one alias, the table it means. */
  function SoleTable(refs: seq<TableRef>): (t: string)
    requires |AliasMap(refs)| == 1
    ensures forall k :: k in AliasMap(refs) ==> AliasMap(refs)[k] == t
  {
    assert refs != [];
    var k := AliasKey(refs[|refs| - 1]);
    assert k in AliasMap(refs);
    SingleKey(AliasMap(refs), k);
    AliasMap(refs)[k]
  }

  /** A one-entry map has one key. */
  lemma SingleKey<V>(m: map<string, V>, k: string)
    requires |m| == 1 && k in m
    ensures forall k' :: k' in m ==> k' == k
  {
    forall k' | k' in m ensures k' == k {
      if k' != k {
        assert {k, k'} <= m.Keys;
        assert |{k, k'}| == 2;
        SubsetCard({k, k'}, m.Keys);
      }
    }
  }

  lemma SubsetCard(a: set<string>, b: set<string>)
    requires a <= b
    ensures |a| <= |b|
  {
    assert b == a + (b - a);
  }

  /**
   * Step 5, the unqualified candidates: all of them go to the table of the
   * only alias when there is exactly one alias, and all to the unmapped set
   * otherwise.
   */
  function AssignCandidates(ttf: TableFields, unmapped: set<string>, refs: seq<TableRef>, candidates: seq<string>): (r: Acc)
    requires AliasesRegistered(ttf, AliasMap(refs))
    ensures r.tableToFields.Keys == ttf.Keys
    ensures forall t :: t in ttf ==> ttf[t] <= r.tableToFields[t]
    ensures unmapped <= r.unmapped
  {
    if |AliasMap(refs)| == 1 && candidates != [] then
      var sole := SoleTable(refs);
      assert sole in ttf;
      Acc(ttf[sole := ttf[sole] + ToSet(candidates)], unmapped)
    else
      Acc(ttf, unmapped + ToSet(candidates))
  }

  /** One block's update of the accumulated state. */
  function Apply(acc: Acc, p: BlockParts): (r: Acc)
    ensures r.tableToFields.Keys == acc.tableToFields.Keys + TablesOf(p.refs)
    ensures forall t :: t in acc.tableToFields ==> acc.tableToFields[t] <= r.tableToFields[t]
    ensures acc.unmapped <= r.unmapped
  {
    var a2t := AliasMap(p.refs);
    var ttf := RegisterTables(acc.tableToFields, p.refs);
    assert AliasesRegistered(ttf, a2t);
    var credited := CreditTables(ttf, a2t, p.fieldRefs);
    AssignCandidates(credited, CreditUnmapped(acc.unmapped, a2t, p.fieldRefs), p.refs, p.candidates)
  }

  /** `b` extends `a`: no table, field or unmapped field is ever dropped. */
  predicate Grows(a: Acc, b: Acc) {
    && a.tableToFields.Keys <= b.tableToFields.Keys
    && (forall t :: t in a.tableToFields ==> a.tableToFields[t] <= b.tableToFields[t])
    && a.unmapped <= b.unmapped
  }

  /** The tables a block's parts name (none when the split pattern does not match). */
  function PartsTables(parts: Option<BlockParts>): set<string> {
    match parts
    case None => {}
    case Some(p) => TablesOf(p.refs)
  }

  /** The tables one block names (none when the split pattern does not match). */
  function BlockTables(block: string, fromClause: bool): set<string> {
    PartsTables(Parts(block, fromClause))
  }

  /** A block's parts applied to the state: nothing when the split pattern did not match. */
  function StepWith(acc: Acc, parts: Option<BlockParts>): (r: Acc)
    ensures parts.None? ==> r == acc
    ensures Grows(acc, r)
    ensures r.tableToFields.Keys == acc.tableToFields.Keys + PartsTables(parts)
  {
    match parts
    case None => acc
    case Some(p) => Apply(acc, p)
  }

  /** A block the split pattern does not match changes nothing; any other block goes through `Apply`. */
  function BlockStep(acc: Acc, block: string, fromClause: bool): (r: Acc)
    ensures Parts(block, fromClause).None? ==> r == acc
    ensures Grows(acc, r)
    ensures r.tableToFields.Keys == acc.tableToFields.Keys + BlockTables(block, fromClause)
  {
    StepWith(acc, Parts(block, fromClause))
  }

  /** The state after all the blocks, in order. */
  function Fold(blocks: seq<string>, fromClause: bool): (r: Acc)
    ensures blocks == [] ==> r == Acc(map[], {})
    ensures blocks != [] ==> Grows(Fold(blocks[..|blocks| - 1], fromClause), r)
    decreases |blocks|
  {
    if blocks == [] then Acc(map[], {})
    else BlockStep(Fold(blocks[..|blocks| - 1], fromClause), blocks[|blocks| - 1], fromClause)
  }

  /** One more block is one more step of the fold. */
  lemma FoldSnoc(blocks: seq<string>, i: nat, fromClause: bool)
    requires i < |blocks|
    ensures Fold(blocks[.. i + 1], fromClause) == BlockStep(Fold(blocks[.. i], fromClause), blocks[i], fromClause)
  {
    TakeSnoc(blocks, i);
    assert blocks[.. i + 1][.. i] == blocks[.. i];
  }

  /** The state the extractor reaches on a method body. */
  function Extracted(methodBody: string, fromClause: bool): Acc {
    Fold(SelectStatements(methodBody), fromClause)
  }

  /**
   * The returned dictionary: one sorted field list per table, plus the
   * sorted unmapped fields under `__UNMAPPED_FIELDS__` when there are any.
   */
  ghost predicate FinalResultOf(result: map<string, seq<string>>, acc: Acc) {
    && (forall t :: t in result <==> t in acc.tableToFields || (t == UnmappedKey && acc.unmapped != {}))
    && (forall t :: t in acc.tableToFields && !(t == UnmappedKey && acc.unmapped != {}) ==>
          SortedListOf(result[t], acc.tableToFields[t]))
    && (acc.unmapped != {} ==> SortedListOf(result[UnmappedKey], acc.unmapped))
  }

  // ---------------------------------------------------------------------
  // What the accumulated state holds

  lemma GrowsTransitive(a: Acc, b: Acc, c: Acc)
    requires Grows(a, b) && Grows(b, c)
    ensures Grows(a, c)
  {
  }

  /** The blocks after the first `i` only add to what those left behind. */
  lemma {:induction false} FoldGrows(blocks: seq<string>, fromClause: bool, i: nat)
    requires i <= |blocks|
    ensures Grows(Fold(blocks[.. i], fromClause), Fold(blocks, fromClause))
    decreases |blocks|
  {
    if i == |blocks| {
      assert blocks[.. i] == blocks;
    } else {
      var init := blocks[..|blocks| - 1];
      assert init[.. i] == blocks[.. i];
      FoldGrows(init, fromClause, i);
      GrowsTransitive(Fold(blocks[.. i], fromClause), Fold(init, fromClause), Fold(blocks, fromClause));
    }
  }

  /** The state after block `i` is the state before it, stepped through block `i`. */
  lemma FoldAt(blocks: seq<string>, fromClause: bool, i: nat)
    requires i < |blocks|
    ensures Fold(blocks[.. i + 1], fromClause) == BlockStep(Fold(blocks[.. i], fromClause), blocks[i], fromClause)
  {
    assert blocks[.. i + 1][.. i] == blocks[.. i];
  }

  /** The tables each block names, block by block. */
  function TablesPerBlock(blocks: seq<string>, fromClause: bool): (r: seq<set<string>>)
    ensures |r| == |blocks|
    decreases |blocks|
  {
    if blocks == [] then []
    else TablesPerBlock(blocks[..|blocks| - 1], fromClause) + [BlockTables(blocks[|blocks| - 1], fromClause)]
  }

  /** Entry `i` holds the tables of block `i`. */
  lemma {:induction false} TablesPerBlockAt(blocks: seq<string>, fromClause: bool, i: nat)
    requires i < |blocks|
    ensures TablesPerBlock(blocks, fromClause)[i] == BlockTables(blocks[i], fromClause)
    decreases |blocks|
  {
    if i < |blocks| - 1 {
      var init := blocks[..|blocks| - 1];
      TablesPerBlockAt(init, fromClause, i);
      var prev := TablesPerBlock(init, fromClause);
      assert TablesPerBlock(blocks, fromClause) == prev + [BlockTables(blocks[|blocks| - 1], fromClause)];
      assert (prev + [BlockTables(blocks[|blocks| - 1], fromClause)])[i] == prev[i];
      assert init[i] == blocks[i];
    }
  }

  /** `t` is in one of the sets. */
  predicate InSome(xss: seq<set<string>>, t: string) {
    exists i :: 0 <= i < |xss| && t in xss[i]
  }

  lemma InSomeSnoc(xss: seq<set<string>>, xs: set<string>, t: string)
    ensures InSome(xss + [xs], t) <==> InSome(xss, t) || t in xs
  {
    var all := xss + [xs];
    if InSome(xss, t) {
      var i :| 0 <= i < |xss| && t in xss[i];
      assert all[i] == xss[i];
    }
    if t in xs {
      assert all[|xss|] == xs;
    }
    if InSome(all, t) {
      var i :| 0 <= i < |all| && t in all[i];
      if i < |xss| {
        assert all[i] == xss[i];
      }
    }
  }

  /** A table has an entry exactly when some block names it after FROM or JOIN. */
  lemma {:induction false} FoldKeys(blocks: seq<string>, fromClause: bool, t: string)
    ensures t in Fold(blocks, fromClause).tableToFields <==> InSome(TablesPerBlock(blocks, fromClause), t)
    decreases |blocks|
  {
    if blocks != [] {
      var init := blocks[..|blocks| - 1];
      var last := blocks[|blocks| - 1];
      FoldKeys(init, fromClause, t);
      InSomeSnoc(TablesPerBlock(init, fromClause), BlockTables(last, fromClause), t);
      assert Fold(blocks, fromClause) == BlockStep(Fold(init, fromClause), last, fromClause);
    }
  }

  /** One block: a qualified field whose alias is known lands in that alias's table. */
  lemma ApplyCredits(acc: Acc, p: BlockParts, f: FieldRef)
    requires f in p.fieldRefs && UpperStr(f.alias) in AliasMap(p.refs)
    ensures var t := AliasMap(p.refs)[UpperStr(f.alias)];
      t in Apply(acc, p).tableToFields && UpperStr(f.field) in Apply(acc, p).tableToFields[t]
  {
    var a2t := AliasMap(p.refs);
    var ttf := RegisterTables(acc.tableToFields, p.refs);
    assert UpperStr(f.field) in CreditedTo(a2t, p.fieldRefs, a2t[UpperStr(f.alias)]);
  }

  /** One block: a qualified field whose alias is unknown lands in the unmapped set. */
  lemma ApplyUnknown(acc: Acc, p: BlockParts, f: FieldRef)
    requires f in p.fieldRefs && UpperStr(f.alias) !in AliasMap(p.refs)
    ensures UpperStr(f.field) in Apply(acc, p).unmapped
  {
    assert UpperStr(f.field) in UnknownAlias(AliasMap(p.refs), p.fieldRefs);
  }

  /** One block: with exactly one alias, every unqualified candidate goes to its table. */
  lemma ApplySoleTable(acc: Acc, p: BlockParts, x: string)
    requires |AliasMap(p.refs)| == 1 && x in p.candidates
    ensures SoleTable(p.refs) in Apply(acc, p).tableToFields
    ensures x in Apply(acc, p).tableToFields[SoleTable(p.refs)]
  {
    assert x in ToSet(p.candidates);
  }

  /** One block: otherwise every unqualified candidate goes to the unmapped set. */
  lemma ApplyNoSoleTable(acc: Acc, p: BlockParts, x: string)
    requires |AliasMap(p.refs)| != 1 && x in p.candidates
    ensures x in Apply(acc, p).unmapped
  {
    assert x in ToSet(p.candidates);
  }

  /** The parts of block `i`, when the split pattern matches it. */
  predicate PartsOf(blocks: seq<string>, fromClause: bool, i: nat, p: BlockParts) {
    i < |blocks| && Parts(blocks[i], fromClause) == Some(p)
  }

  /** Whatever a block puts into the state is still there after all the blocks. */
  lemma Survives(blocks: seq<string>, fromClause: bool, i: nat, p: BlockParts)
    requires PartsOf(blocks, fromClause, i, p)
    ensures Grows(Apply(Fold(blocks[.. i], fromClause), p), Fold(blocks, fromClause))
  {
    FoldAt(blocks, fromClause, i);
    FoldGrows(blocks, fromClause, i + 1);
  }

  /** `alias~field` in any block is reported under the table the alias names in that block. */
  lemma QualifiedFieldReported(blocks: seq<string>, fromClause: bool, i: nat, p: BlockParts, f: FieldRef)
    requires PartsOf(blocks, fromClause, i, p)
    requires f in p.fieldRefs && UpperStr(f.alias) in AliasMap(p.refs)
    ensures var t := AliasMap(p.refs)[UpperStr(f.alias)]; var acc := Fold(blocks, fromClause);
      t in acc.tableToFields && UpperStr(f.field) in acc.tableToFields[t]
  {
    ApplyCredits(Fold(blocks[.. i], fromClause), p, f);
    Survives(blocks, fromClause, i, p);
  }

  /** `alias~field` with an alias the block does not define is reported as unmapped. */
  lemma UnknownAliasUnmapped(blocks: seq<string>, fromClause: bool, i: nat, p: BlockParts, f: FieldRef)
    requires PartsOf(blocks, fromClause, i, p)
    requires f in p.fieldRefs && UpperStr(f.alias) !in AliasMap(p.refs)
    ensures UpperStr(f.field) in Fold(blocks, fromClause).unmapped
  {
    ApplyUnknown(Fold(blocks[.. i], fromClause), p, f);
    Survives(blocks, fromClause, i, p);
  }

  /** An unqualified field of a block with one alias is reported under that alias's table. */
  lemma UnqualifiedToSoleTable(blocks: seq<string>, fromClause: bool, i: nat, p: BlockParts, x: string)
    requires PartsOf(blocks, fromClause, i, p)
    requires |AliasMap(p.refs)| == 1 && x in p.candidates
    ensures SoleTable(p.refs) in Fold(blocks, fromClause).tableToFields
    ensures x in Fold(blocks, fromClause).tableToFields[SoleTable(p.refs)]
  {
    ApplySoleTable(Fold(blocks[.. i], fromClause), p, x);
    Survives(blocks, fromClause, i, p);
  }

  /** An unqualified field of a block with no alias or several is reported as unmapped. */
  lemma UnqualifiedUnmapped(blocks: seq<string>, fromClause: bool, i: nat, p: BlockParts, x: string)
    requires PartsOf(blocks, fromClause, i, p)
    requires |AliasMap(p.refs)| != 1 && x in p.candidates
    ensures x in Fold(blocks, fromClause).unmapped
  {
    ApplyNoSoleTable(Fold(blocks[.. i], fromClause), p, x);
    Survives(blocks, fromClause, i, p);
  }

  /** Field `f` reaches table `t` from block parts `p`: by a known alias, or as an unqualified field of a one-alias block. */
  predicate RoutedToTable(p: BlockParts, t: string, f: string) {
    || f in CreditedTo(AliasMap(p.refs), p.fieldRefs, t)
    || (|AliasMap(p.refs)| == 1 && SoleTable(p.refs) == t && f in p.candidates)
  }

  /** Field `f` reaches the unmapped set from block parts `p`: by an unknown alias, or as an unqualified field of a block without exactly one alias. */
  predicate RoutedToUnmapped(p: BlockParts, f: string) {
    || f in UnknownAlias(AliasMap(p.refs), p.fieldRefs)
    || (|AliasMap(p.refs)| != 1 && f in p.candidates)
  }

  /** One block adds a field to a table or to the unmapped set only by one of the routes. */
  lemma ApplySound(acc: Acc, p: BlockParts, t: string, f: string)
    ensures var r := Apply(acc, p);
      t in r.tableToFields && f in r.tableToFields[t] ==>
        (t in acc.tableToFields && f in acc.tableToFields[t]) || RoutedToTable(p, t, f)
    ensures f in Apply(acc, p).unmapped ==> f in acc.unmapped || RoutedToUnmapped(p, f)
  {
    var a2t := AliasMap(p.refs);
    var ttf := RegisterTables(acc.tableToFields, p.refs);
    assert AliasesRegistered(ttf, a2t);
    var credited := CreditTables(ttf, a2t, p.fieldRefs);
    var un := CreditUnmapped(acc.unmapped, a2t, p.fieldRefs);
    var r := AssignCandidates(credited, un, p.refs, p.candidates);
    assert r == Apply(acc, p);
    if t in r.tableToFields && f in r.tableToFields[t] {
      assert t in ttf;
      if f !in credited[t] {
        assert |a2t| == 1 && p.candidates != [] && t == SoleTable(p.refs) && f in ToSet(p.candidates);
      } else if f !in ttf[t] {
        assert f in CreditedTo(a2t, p.fieldRefs, t);
      }
    }
    if f in r.unmapped && f !in un {
      assert f in ToSet(p.candidates);
    }
  }

  /** One step of the fold adds a field only by one of the routes of that block's parts. */
  lemma StepSound(acc: Acc, parts: Option<BlockParts>, t: string, f: string)
    ensures var r := StepWith(acc, parts);
      t in r.tableToFields && f in r.tableToFields[t] ==>
        (t in acc.tableToFields && f in acc.tableToFields[t]) || (parts.Some? && RoutedToTable(parts.value, t, f))
    ensures f in StepWith(acc, parts).unmapped ==> f in acc.unmapped || (parts.Some? && RoutedToUnmapped(parts.value, f))
  {
    if parts.Some? {
      ApplySound(acc, parts.value, t, f);
    }
  }

  /** The fold splits into the fold of all but the last block and one step through the last block's parts. */
  lemma FoldLast(blocks: seq<string>, fromClause: bool)
    requires blocks != []
    ensures Fold(blocks, fromClause) == StepWith(Fold(blocks[..|blocks| - 1], fromClause), Parts(blocks[|blocks| - 1], fromClause))
  {
  }

  /**
   * Nothing else reaches a table: a field listed under a table was credited
   * to it by a known alias, or was an unqualified field of a one-alias block
   * naming it, in some block.
   */
  lemma FoldFieldsSound(blocks: seq<string>, fromClause: bool, t: string, f: string)
    requires t in Fold(blocks, fromClause).tableToFields && f in Fold(blocks, fromClause).tableToFields[t]
    ensures exists i, p :: PartsOf(blocks, fromClause, i, p) && RoutedToTable(p, t, f)
  {
    var i, p := TableRouteOf(blocks, fromClause, t, f);
  }

  /** The block, and its parts, that put `f` under `t`. */
  lemma {:induction false} TableRouteOf(blocks: seq<string>, fromClause: bool, t: string, f: string) returns (i: nat, p: BlockParts)
    requires t in Fold(blocks, fromClause).tableToFields && f in Fold(blocks, fromClause).tableToFields[t]
    ensures PartsOf(blocks, fromClause, i, p) && RoutedToTable(p, t, f)
    decreases |blocks|
  {
    var init, last := blocks[..|blocks| - 1], blocks[|blocks| - 1];
    var prev := Fold(init, fromClause);
    FoldLast(blocks, fromClause);
    StepSound(prev, Parts(last, fromClause), t, f);
    if t in prev.tableToFields && f in prev.tableToFields[t] {
      i, p := TableRouteOf(init, fromClause, t, f);
      assert init[i] == blocks[i];
    } else {
      i, p := |blocks| - 1, Parts(last, fromClause).value;
    }
  }

  /**
   * Nothing else reaches the unmapped set: an unmapped field had an alias
   * its block does not define, or was an unqualified field of a block with
   * no alias or several, in some block.
   */
  lemma FoldUnmappedSound(blocks: seq<string>, fromClause: bool, f: string)
    requires f in Fold(blocks, fromClause).unmapped
    ensures exists i, p :: PartsOf(blocks, fromClause, i, p) && RoutedToUnmapped(p, f)
  {
    var i, p := UnmappedRouteOf(blocks, fromClause, f);
  }

  /** The block, and its parts, that put `f` in the unmapped set. */
  lemma {:induction false} UnmappedRouteOf(blocks: seq<string>, fromClause: bool, f: string) returns (i: nat, p: BlockParts)
    requires f in Fold(blocks, fromClause).unmapped
    ensures PartsOf(blocks, fromClause, i, p) && RoutedToUnmapped(p, f)
    decreases |blocks|
  {
    var init, last := blocks[..|blocks| - 1], blocks[|blocks| - 1];
    var prev := Fold(init, fromClause);
    FoldLast(blocks, fromClause);
    StepSound(prev, Parts(last, fromClause), "", f);
    if f in prev.unmapped {
      i, p := UnmappedRouteOf(init, fromClause, f);
      assert init[i] == blocks[i];
    } else {
      i, p := |blocks| - 1, Parts(last, fromClause).value;
    }
  }

  /** Every table name and every field of the dictionary is upper-case. */
  predicate MapUpper(ttf: TableFields) {
    && (forall t :: t in ttf ==> IsUpperStr(t))
    && (forall t, f :: t in ttf && f in ttf[t] ==> IsUpperStr(f))
  }

  predicate SetUpper(xs: set<string>) {
    forall f :: f in xs ==> IsUpperStr(f)
  }

  /** Every table name and every field the state holds is upper-case. */
  predicate AccUpper(acc: Acc) {
    MapUpper(acc.tableToFields) && SetUpper(acc.unmapped)
  }

  lemma UpperStrIsUpper(s: string)
    ensures IsUpperStr(UpperStr(s))
  {
  }

  lemma RegisterUpper(ttf: TableFields, refs: seq<TableRef>)
    requires MapUpper(ttf)
    ensures MapUpper(RegisterTables(ttf, refs))
  {
    var r := RegisterTables(ttf, refs);
    forall t | t in r ensures IsUpperStr(t) {
      if t !in ttf {
        var x :| x in refs && t == UpperStr(x.table);
        UpperStrIsUpper(x.table);
      }
    }
  }

  lemma CreditUpper(ttf: TableFields, a2t: Aliases, frefs: seq<FieldRef>)
    requires AliasesRegistered(ttf, a2t) && MapUpper(ttf)
    ensures MapUpper(CreditTables(ttf, a2t, frefs))
  {
    var credited := CreditTables(ttf, a2t, frefs);
    forall t, f | t in credited && f in credited[t] ensures IsUpperStr(f) {
      if f !in ttf[t] {
        var g :| g in frefs && UpperStr(g.alias) in a2t && a2t[UpperStr(g.alias)] == t && f == UpperStr(g.field);
        UpperStrIsUpper(g.field);
      }
    }
  }

  lemma CreditUnmappedUpper(unmapped: set<string>, a2t: Aliases, frefs: seq<FieldRef>)
    requires SetUpper(unmapped)
    ensures SetUpper(CreditUnmapped(unmapped, a2t, frefs))
  {
    forall f | f in CreditUnmapped(unmapped, a2t, frefs) ensures IsUpperStr(f) {
      if f !in unmapped {
        var g :| g in frefs && UpperStr(g.alias) !in a2t && f == UpperStr(g.field);
        UpperStrIsUpper(g.field);
      }
    }
  }

  lemma AssignUpper(ttf: TableFields, unmapped: set<string>, refs: seq<TableRef>, candidates: seq<string>)
    requires AliasesRegistered(ttf, AliasMap(refs)) && MapUpper(ttf) && SetUpper(unmapped)
    requires forall x :: x in candidates ==> IsUpperStr(x)
    ensures AccUpper(AssignCandidates(ttf, unmapped, refs, candidates))
  {
  }

  lemma ApplyUpper(acc: Acc, p: BlockParts)
    requires AccUpper(acc)
    requires forall x :: x in p.candidates ==> IsUpperStr(x)
    ensures AccUpper(Apply(acc, p))
  {
    var a2t := AliasMap(p.refs);
    var ttf := RegisterTables(acc.tableToFields, p.refs);
    RegisterUpper(acc.tableToFields, p.refs);
    assert AliasesRegistered(ttf, a2t);
    CreditUpper(ttf, a2t, p.fieldRefs);
    CreditUnmappedUpper(acc.unmapped, a2t, p.fieldRefs);
    AssignUpper(CreditTables(ttf, a2t, p.fieldRefs), CreditUnmapped(acc.unmapped, a2t, p.fieldRefs), p.refs, p.candidates);
  }

  /** Table names and fields are reported upper-case. */
  lemma {:induction false} FoldUpper(blocks: seq<string>, fromClause: bool)
    ensures AccUpper(Fold(blocks, fromClause))
    decreases |blocks|
  {
    if blocks != [] {
      var init := blocks[..|blocks| - 1];
      FoldUpper(init, fromClause);
      var last := blocks[|blocks| - 1];
      match Parts(last, fromClause)
      case None =>
      case Some(p) =>
        forall x | x in p.candidates ensures IsUpperStr(x) {
          var m := SplitSearch(last, 0).value;
          CandidateShape(RawCandidates(FieldsText(last, m)), x);
        }
        ApplyUpper(Fold(init, fromClause), p);
    }
  }

  /** The returned dictionary is determined by the state: `sorted()` has one answer. */
  lemma FinalResultUnique(r1: map<string, seq<string>>, r2: map<string, seq<string>>, acc: Acc)
    requires FinalResultOf(r1, acc) && FinalResultOf(r2, acc)
    ensures r1 == r2
  {
    forall t | t in r1 ensures r1[t] == r2[t] {
      if t == UnmappedKey && acc.unmapped != {} {
        SortedListUnique(r1[t], r2[t], acc.unmapped);
      } else {
        SortedListUnique(r1[t], r2[t], acc.tableToFields[t]);
      }
    }
  }

  // ---------------------------------------------------------------------
  // The extractor

  /** The FROM/JOIN loop: registers each table and records its alias. */
  method RegisterRefs(ttf0: TableFields, refs: seq<TableRef>) returns (tableToFields: TableFields, aliasToTable: Aliases)
    ensures tableToFields == RegisterTables(ttf0, refs)
    ensures aliasToTable == AliasMap(refs)
  {
    tableToFields, aliasToTable := ttf0, map[];
    var j := 0;
    while j < |refs|
      invariant 0 <= j <= |refs|
      invariant tableToFields == RegisterTables(ttf0, refs[.. j])
      invariant aliasToTable == AliasMap(refs[.. j])
    {
      var tableUpper := UpperStr(refs[j].table);
      var aliasUpper := if refs[j].alias != [] then UpperStr(refs[j].alias) else tableUpper;
      if tableUpper !in tableToFields {
        tableToFields := tableToFields[tableUpper := {}];
      }
      aliasToTable := aliasToTable[aliasUpper := tableUpper];
      RegisterSnoc(ttf0, refs, j);
      j := j + 1;
    }
    assert refs[.. j] == refs;
  }

  /** The `alias~field` loop. */
  method CreditFields(ttf0: TableFields, un0: set<string>, aliasToTable: Aliases, frefs: seq<FieldRef>)
    returns (tableToFields: TableFields, unmapped: set<string>)
    requires AliasesRegistered(ttf0, aliasToTable)
    ensures tableToFields == CreditTables(ttf0, aliasToTable, frefs)
    ensures unmapped == CreditUnmapped(un0, aliasToTable, frefs)
  {
    tableToFields, unmapped := ttf0, un0;
    var j := 0;
    while j < |frefs|
      invariant 0 <= j <= |frefs|
      invariant tableToFields == CreditTables(ttf0, aliasToTable, frefs[.. j])
      invariant unmapped == CreditUnmapped(un0, aliasToTable, frefs[.. j])
    {
      var aliasFound := UpperStr(frefs[j].alias);
      var fieldFound := UpperStr(frefs[j].field);
      TakeSnoc(frefs, j);
      assert frefs[.. j + 1][.. j] == frefs[.. j];
      if aliasFound in aliasToTable {
        var tableName := aliasToTable[aliasFound];
        tableToFields := tableToFields[tableName := tableToFields[tableName] + {fieldFound}];
      } else {
        unmapped := unmapped + {fieldFound};
      }
      j := j + 1;
    }
    assert frefs[.. j] == frefs;
  }

  /** The candidate filter loop building `final_field_candidates`. */
  method FilterCandidates(raw: seq<string>) returns (finalCandidates: seq<string>)
    ensures finalCandidates == FinalCandidates(raw)
  {
    finalCandidates := [];
    var j := 0;
    while j < |raw|
      invariant 0 <= j <= |raw|
      invariant finalCandidates == FinalCandidates(raw[.. j])
    {
      var fcClean := CleanCandidate(raw[j]);
      if fcClean != [] && !Ignored(fcClean) {
        finalCandidates := finalCandidates + [fcClean];
      }
      TakeSnoc(raw, j);
      assert raw[.. j + 1][.. j] == raw[.. j];
      j := j + 1;
    }
    assert raw[.. j] == raw;
  }

  /**
   * One block of the main loop. The table pattern runs over the split
   * pattern's second group when `fromClause` is false, as the Python function does,
   * and over the whole FROM clause when it is true.
   */
  method ProcessBlock(ttf0: TableFields, un0: set<string>, block: string, fromClause: bool) returns (tableToFields: TableFields, unmapped: set<string>)
    ensures Acc(tableToFields, unmapped) == BlockStep(Acc(ttf0, un0), block, fromClause)
  {
    var matchSplit := SplitSearch(block, 0);
    if matchSplit.None? {
      return ttf0, un0;
    }
    var m := matchSplit.value;
    var fieldsStr := FieldsText(block, m);
    var fromClauseStr := if fromClause then FromClauseText(block, m) else FromJoinText(block, m);
    var refs := TableAliasHits(fromClauseStr, 0);
    var aliasToTable;
    tableToFields, aliasToTable := RegisterRefs(ttf0, refs);
    tableToFields, unmapped := CreditFields(tableToFields, un0, aliasToTable, FieldRefs(fieldsStr, 0));
    var finalCandidates := FilterCandidates(RawCandidates(fieldsStr));
    tableToFields, unmapped := AssignUnqualified(tableToFields, unmapped, aliasToTable, refs, finalCandidates);
  }

  /** Step 5 as the Python function writes it: one loop to the sole table or one loop to the unmapped set. */
  method AssignUnqualified(ttf0: TableFields, un0: set<string>, aliasToTable: Aliases, refs: seq<TableRef>, finalCandidates: seq<string>)
    returns (tableToFields: TableFields, unmapped: set<string>)
    requires aliasToTable == AliasMap(refs) && AliasesRegistered(ttf0, aliasToTable)
    ensures Acc(tableToFields, unmapped) == AssignCandidates(ttf0, un0, refs, finalCandidates)
  {
    tableToFields, unmapped := ttf0, un0;
    if |aliasToTable| == 1 && finalCandidates != [] {
      var alias :| alias in aliasToTable;
      var soleTable := aliasToTable[alias];
      assert soleTable == SoleTable(refs) && soleTable in ttf0;
      tableToFields := AddToEntry(tableToFields, soleTable, finalCandidates);
    } else {
      unmapped := AddAll(unmapped, finalCandidates);
    }
  }

  /** `for fc in xs: m[k].add(fc)`. */
  method AddToEntry(m: TableFields, k: string, xs: seq<string>) returns (r: TableFields)
    requires k in m
    ensures r == m[k := m[k] + ToSet(xs)]
  {
    r := m;
    assert ToSet(xs[..0]) == {};
    assert m[k] + {} == m[k];
    assert r == m[k := m[k] + ToSet(xs[..0])];
    var j := 0;
    while j < |xs|
      invariant 0 <= j <= |xs|
      invariant r == m[k := m[k] + ToSet(xs[.. j])]
    {
      ToSetSnoc(xs, j);
      assert m[k] + ToSet(xs[.. j]) + {xs[j]} == m[k] + ToSet(xs[.. j + 1]);
      r := r[k := r[k] + {xs[j]}];
      j := j + 1;
    }
    assert xs[.. j] == xs;
  }

  /** `for fc in xs: s.add(fc)`. */
  method AddAll(s: set<string>, xs: seq<string>) returns (r: set<string>)
    ensures r == s + ToSet(xs)
  {
    r := s;
    var j := 0;
    while j < |xs|
      invariant 0 <= j <= |xs|
      invariant r == s + ToSet(xs[.. j])
    {
      ToSetSnoc(xs, j);
      r := r + {xs[j]};
      j := j + 1;
    }
    assert xs[.. j] == xs;
  }

  /**
   * `extract_tables_and_fields`: the dictionary of sorted field lists. With
   * `fromClause` false the table pattern runs over the text after `FROM\s+`,
   * as the Python function does, so the table named right after FROM is never
   * registered; with `fromClause` true it runs over the FROM clause itself,
   * the corrected reading under which that table is registered too.
   */
  method ExtractTablesAndFields(methodBody: string, fromClause: bool) returns (result: map<string, seq<string>>)
    ensures FinalResultOf(result, Extracted(methodBody, fromClause))
  {
    var tableToFields: TableFields := map[];
    var unmapped: set<string> := {};
    var selectBlocks := SelectStatements(methodBody);
    var i := 0;
    while i < |selectBlocks|
      invariant 0 <= i <= |selectBlocks|
      invariant Acc(tableToFields, unmapped) == Fold(selectBlocks[.. i], fromClause)
    {
      FoldSnoc(selectBlocks, i, fromClause);
      tableToFields, unmapped := ProcessBlock(tableToFields, unmapped, selectBlocks[i], fromClause);
      i := i + 1;
    }
    assert selectBlocks[.. i] == selectBlocks;
    result := Finalize(tableToFields, unmapped);
  }

  /** Step 6: every field set becomes a sorted list; the unmapped list is added when non-empty. */
  method Finalize(tableToFields: TableFields, unmapped: set<string>) returns (result: map<string, seq<string>>)
    ensures FinalResultOf(result, Acc(tableToFields, unmapped))
  {
    result := map[];
    var todo := tableToFields.Keys;
    while todo != {}
      invariant todo <= tableToFields.Keys
      invariant result.Keys == tableToFields.Keys - todo
      invariant forall t :: t in result ==> SortedListOf(result[t], tableToFields[t])
      decreases |todo|
    {
      var tbl :| tbl in todo;
      var fields := SortSet(tableToFields[tbl]);
      result := result[tbl := fields];
      todo := todo - {tbl};
    }
    if unmapped != {} {
      var fields := SortSet(unmapped);
      result := result[UnmappedKey := fields];
    }
  }
}
