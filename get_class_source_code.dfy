/**
 * `get_class_source_code`: the comment-stripped source of an ABAP class,
 * read from the repository file `zs4intcpq/<class name>.clas.abap`.
 *
 * The repository is a parameter: a map from file path to file content, so
 * a path that is absent is a file the loader does not return.
 */
module GetClassSourceCode {
  import opened Text
  import opened Errors
  import RemoveComments

  /** Path of a class's source file: the name lower-cased, under `zs4intcpq/`. */
  function ClassPath(className: string): string
  {
    "zs4intcpq/" + LowerStr(className) + ".clas.abap"
  }

  function GetClassSourceCode(repo: map<string, string>, className: string): (r: Result<string>)
    ensures className == [] ==> r == Err(ValueError("`class_name` cannot be empty."))
    ensures className != [] && ClassPath(className) !in repo ==>
      r == Err(ValueError("Class '" + className + "' not found in the repository."))
    ensures className != [] && ClassPath(className) in repo ==>
      r == Ok(RemoveComments.RemoveComments(repo[ClassPath(className)]))
  {
    if className == [] then Err(ValueError("`class_name` cannot be empty."))
    else
      var path := ClassPath(className);
      if path !in repo then Err(ValueError("Class '" + className + "' not found in the repository."))
      else Ok(RemoveComments.RemoveComments(repo[path]))
  }

  /** The result is already free of comment blocks: stripping it again changes nothing. */
  lemma ClassSourceIsStripped(repo: map<string, string>, className: string)
    requires GetClassSourceCode(repo, className).Ok?
    ensures RemoveComments.RemoveComments(GetClassSourceCode(repo, className).value) == GetClassSourceCode(repo, className).value
  {
    RemoveComments.RemoveCommentsIdempotent(repo[ClassPath(className)]);
  }

  /** Only the class's own file is read: repositories that agree on it give the same answer. */
  lemma ClassSourceReadsOnlyItsFile(repo1: map<string, string>, repo2: map<string, string>, className: string)
    requires className != []
    requires (ClassPath(className) in repo1) == (ClassPath(className) in repo2)
    requires ClassPath(className) in repo1 ==> repo1[ClassPath(className)] == repo2[ClassPath(className)]
    ensures GetClassSourceCode(repo1, className) == GetClassSourceCode(repo2, className)
  {
  }

  /** The class name is looked up case-insensitively: `ZCL_X` and `zcl_x` read the same file. */
  lemma ClassNameCaseInsensitive(repo: map<string, string>, className: string)
    requires className != []
    ensures GetClassSourceCode(repo, className).Ok? == GetClassSourceCode(repo, LowerStr(className)).Ok?
    ensures GetClassSourceCode(repo, className).Ok? ==>
      GetClassSourceCode(repo, className).value == GetClassSourceCode(repo, LowerStr(className)).value
  {
    assert LowerStr(LowerStr(className)) == LowerStr(className);
  }
}
