/**
 * `get_source_code`: the comment-stripped source of an ABAP object of one
 * of five kinds, read from `zs4intcpq/<name>.<type>.abap`.
 *
 * The stripper this tool imports is taken to be the same `remove_comments`
 * as the class-source utility uses.
 */
module GetSourceCode {
  import opened Text
  import opened Errors
  import RemoveComments

  /** The accepted object types, compared exactly (before any lower-casing). */
  const AllowedTypes: set<string> := {"clas", "intf", "tabl", "prog", "ddls"}

  function ObjectPath(objectName: string, objectType: string): string
  {
    "zs4intcpq/" + LowerStr(objectName) + "." + LowerStr(objectType) + ".abap"
  }

  function GetSourceCode(repo: map<string, string>, objectName: string, objectType: string): (r: Result<string>)
    ensures objectName == [] ==> r == Err(ValueError("`object_name` cannot be empty."))
    ensures objectName != [] && objectType !in AllowedTypes ==>
      r.Err? && r.error.ValueError? && "Invalid object_type '" + objectType + "'" <= r.error.message
    ensures r.Ok? <==> objectName != [] && objectType in AllowedTypes && ObjectPath(objectName, objectType) in repo
    ensures r.Ok? ==> r.value == RemoveComments.RemoveComments(repo[ObjectPath(objectName, objectType)])
  {
    if objectName == [] then Err(ValueError("`object_name` cannot be empty."))
    else if objectType !in AllowedTypes then
      Err(ValueError("Invalid object_type '" + objectType + "'. Must be one of " + AllowedTypesDisplay))
    else
      var path := ObjectPath(objectName, objectType);
      if path !in repo then Err(ValueError("Object " + objectName + "/" + objectType + " was not found in the repository."))
      else Ok(RemoveComments.RemoveComments(repo[path]))
  }

  /** The allowed set as the error message shows it (Python's set display order is not fixed). */
  const AllowedTypesDisplay: string := "{'clas', 'intf', 'tabl', 'prog', 'ddls'}"

  /** The type is checked before lower-casing, so an upper-case type is refused. */
  lemma UpperCaseTypeRejected(repo: map<string, string>, objectName: string)
    requires objectName != []
    ensures GetSourceCode(repo, objectName, "CLAS").Err?
  {
  }

  /** An accepted type is already lower case, so the file name uses it verbatim. */
  lemma AcceptedTypeIsLowerCase(objectType: string)
    requires objectType in AllowedTypes
    ensures LowerStr(objectType) == objectType
  {
  }

  /** The result is already free of comment blocks. */
  lemma SourceIsStripped(repo: map<string, string>, objectName: string, objectType: string)
    requires GetSourceCode(repo, objectName, objectType).Ok?
    ensures RemoveComments.RemoveComments(GetSourceCode(repo, objectName, objectType).value) == GetSourceCode(repo, objectName, objectType).value
  {
    RemoveComments.RemoveCommentsIdempotent(repo[ObjectPath(objectName, objectType)]);
  }
}
