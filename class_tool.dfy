/**
 * The preamble the class tools (`ClassDefTool`, `GetMethodList`,
 * `GetMethodCode`) share: reject an empty class name, fetch the class's
 * comment-stripped source, and reject an empty source.
 */
module ClassTool {
  import opened Errors
  import GetClassSourceCode

  /** The message raised when the fetched source is empty. */
  function NotFoundMessage(className: string): string
  {
    "Class '" + className + "' not found or source code retrieval failed."
  }

  /** The source a class tool works on, or the error it raises before scanning. */
  function ToolSource(repo: map<string, string>, className: string): (r: Result<string>)
    ensures className == [] ==> r == Err(ValueError("`class_name` cannot be empty."))
    ensures className != [] && GetClassSourceCode.GetClassSourceCode(repo, className).Err? ==>
      r == GetClassSourceCode.GetClassSourceCode(repo, className)
    ensures className != [] && GetClassSourceCode.GetClassSourceCode(repo, className) == Ok([]) ==>
      r == Err(ValueError(NotFoundMessage(className)))
    ensures r.Ok? <==>
      (className != [] && GetClassSourceCode.GetClassSourceCode(repo, className).Ok?
       && GetClassSourceCode.GetClassSourceCode(repo, className).value != [])
    ensures r.Ok? ==> r == GetClassSourceCode.GetClassSourceCode(repo, className)
  {
    if className == [] then Err(ValueError("`class_name` cannot be empty."))
    else
      var fetched := GetClassSourceCode.GetClassSourceCode(repo, className);
      if fetched.Err? then fetched
      else if fetched.value == [] then Err(ValueError(NotFoundMessage(className)))
      else fetched
  }

  /** A class whose file is missing from the repository is reported by the fetch, not by the tool. */
  lemma MissingFileReported(repo: map<string, string>, className: string)
    requires className != [] && GetClassSourceCode.ClassPath(className) !in repo
    ensures ToolSource(repo, className) == Err(ValueError("Class '" + className + "' not found in the repository."))
  {
  }
}
