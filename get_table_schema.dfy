/**
 * `GetTableSchema._run`, up to the request: argument validation, the choice
 * of system and the OData URL with its `$filter`.
 *
 * The host names are a parameter (`Hosts`); the SAP client numbers are the
 * fixed 300 (RHA) and 110 (D2A, DHA).
 */
module GetTableSchema {
  import opened Text
  import opened Errors
  import opened Lines

  /** The host of each system. */
  datatype Hosts = Hosts(rha: string, d2a: string, dha: string)

  /** `field_names` as received: a list, or anything else (absent, `None`, not a list). */
  datatype FieldNames = NotAList | List(names: seq<string>)

  /** The host and the SAP client of a known system id. */
  datatype System = System(host: string, client: string)

  /** The system configuration table: RHA, D2A and DHA, and nothing else. */
  function SystemFor(hosts: Hosts, systemId: string): (r: Option<System>)
    ensures r.Some? <==> systemId in {"RHA", "D2A", "DHA"}
    ensures r.Some? ==> (r.value.client == "300" <==> systemId == "RHA")
    ensures r.Some? ==> (r.value.client == "110" <==> systemId != "RHA")
  {
    if systemId == "RHA" then Some(System(hosts.rha, "300"))
    else if systemId == "D2A" then Some(System(hosts.d2a, "110"))
    else if systemId == "DHA" then Some(System(hosts.dha, "110"))
    else None
  }

  /** `fieldname eq '<field>'`. */
  function FieldClause(field: string): string {
    "fieldname eq '" + field + "'"
  }

  function FieldClauses(fields: seq<string>): (r: seq<string>)
    ensures |r| == |fields|
    ensures forall k :: 0 <= k < |fields| ==> r[k] == FieldClause(fields[k])
  {
    seq(|fields|, k requires 0 <= k < |fields| => FieldClause(fields[k]))
  }

  /** The `$filter` condition on fields: the listed fields, or only the key fields. */
  function Filters(fieldNames: FieldNames): string {
    if fieldNames.List? && fieldNames.names != [] then JoinWith(FieldClauses(fieldNames.names), " or ")
    else "keyflag eq true"
  }

  const ServicePath := "/sap/opu/odata4/sap/zsb_table_schema/srvd_a2x/sap/zsd_table_schema/0001/TabFields"

  /** The request URL for a table on a system. */
  function SchemaUrl(system: System, tableName: string, fieldNames: FieldNames): string {
    system.host + ServicePath + "?$filter=(tableName eq '" + tableName + "' and (" + Filters(fieldNames) + "))"
      + "&sap-client=" + system.client
  }

  /**
   * The tool up to the request: the URL it would fetch, or the error raised.
   * `systemId` is `None` when the argument is absent.
   */
  function TableSchemaRequest(hosts: Hosts, tableName: Option<string>, systemId: Option<string>, fieldNames: FieldNames): (r: Result<string>)
    ensures (tableName.None? || tableName.value == []) ==> r == Err(ValueError("Please provide the `table_name`."))
    ensures r.Ok? <==>
      (tableName.Some? && tableName.value != [] && UpperStr(systemId.GetOr("RHA")) in {"RHA", "D2A", "DHA"})
    ensures tableName.Some? && tableName.value != [] && r.Err? ==>
      r == Err(ValueError("Invalid system_id: " + UpperStr(systemId.GetOr("RHA")) + ". Allowed values: ['RHA', 'D2A', 'DHA']"))
    ensures r.Ok? ==> r.value == SchemaUrl(SystemFor(hosts, UpperStr(systemId.GetOr("RHA"))).value, tableName.value, fieldNames)
  {
    var id := UpperStr(systemId.GetOr("RHA"));
    if tableName.None? || tableName.value == [] then Err(ValueError("Please provide the `table_name`."))
    else
      match SystemFor(hosts, id)
      case None => Err(ValueError("Invalid system_id: " + id + ". Allowed values: ['RHA', 'D2A', 'DHA']"))
      case Some(system) => Ok(SchemaUrl(system, tableName.value, fieldNames))
  }

  /** Upper-casing twice is upper-casing once. */
  lemma UpperStrIdempotent(s: string)
    ensures UpperStr(UpperStr(s)) == UpperStr(s)
  {
  }

  /** An absent system id is RHA. */
  lemma DefaultSystemIsRha(hosts: Hosts, tableName: Option<string>, fieldNames: FieldNames)
    ensures TableSchemaRequest(hosts, tableName, None, fieldNames) == TableSchemaRequest(hosts, tableName, Some("RHA"), fieldNames)
  {
  }

  /** The system id is read case-insensitively: `dha` and `DHA` give the same request. */
  lemma SystemIdCaseInsensitive(hosts: Hosts, tableName: Option<string>, systemId: string, fieldNames: FieldNames)
    ensures TableSchemaRequest(hosts, tableName, Some(systemId), fieldNames)
      == TableSchemaRequest(hosts, tableName, Some(UpperStr(systemId)), fieldNames)
  {
    UpperStrIdempotent(systemId);
  }

  /** Without a non-empty list of fields only the key fields are asked for. */
  lemma KeyFieldsByDefault(fieldNames: FieldNames)
    requires fieldNames.NotAList? || fieldNames.names == []
    ensures Filters(fieldNames) == "keyflag eq true"
  {
  }

  /** One more field adds ` or fieldname eq '<field>'` at the end: the clauses follow the list order. */
  lemma FieldFilterSnoc(fields: seq<string>, field: string)
    requires fields != []
    ensures Filters(List(fields + [field])) == Filters(List(fields)) + " or " + FieldClause(field)
  {
    assert FieldClauses(fields + [field]) == FieldClauses(fields) + [FieldClause(field)];
    JoinSnoc(FieldClauses(fields), FieldClause(field), " or ");
  }

  /** A single field gives a single clause. */
  lemma SingleFieldFilter(field: string)
    ensures Filters(List([field])) == "fieldname eq '" + field + "'"
  {
    assert FieldClauses([field]) == [FieldClause(field)];
  }

  /** The URL names the system's host first and its client last, and carries the table name in the filter. */
  lemma SchemaUrlParts(system: System, tableName: string, fieldNames: FieldNames)
    ensures var url := SchemaUrl(system, tableName, fieldNames);
      var head := system.host + ServicePath + "?$filter=(tableName eq '" + tableName + "' and (";
      var tail := "))&sap-client=" + system.client;
      |head| + |tail| <= |url| && url[..|head|] == head && url[|url| - |tail|..] == tail
      && url[|head|..|url| - |tail|] == Filters(fieldNames)
  {
    var head := system.host + ServicePath + "?$filter=(tableName eq '" + tableName + "' and (";
    var tail := "))&sap-client=" + system.client;
    var url := SchemaUrl(system, tableName, fieldNames);
    assert url == head + Filters(fieldNames) + tail;
  }
}
