/**
 * `GetExamples._run`: the example file for a kind of ABAP test double.
 *
 * The requested kind is normalised (`str(...).lower().strip()`), checked
 * against the six known kinds and mapped to a file under the tool's own
 * directory. The directory and the state of the files are parameters.
 */
module GetExamples {
  import opened Text
  import opened Errors

  const AllowedKinds: set<string> := {"sql", "cds", "ooabap", "func", "authcheck", "testseams"}

  /** The allowed set as the error message shows it (Python's set display order is not fixed). */
  const AllowedKindsDisplay: string := "{'sql', 'cds', 'ooabap', 'func', 'authcheck', 'testseams'}"

  /** Each kind's example file, relative to the tool's directory. */
  const FileMapping: map<string, string> := map[
    "sql" := "Examples/SQLTestDouble.py",
    "cds" := "Examples/CDSTestDouble.py",
    "ooabap" := "Examples/OO-AbapTestDouble.py",
    "func" := "Examples/FuncModuleTestDouble.py",
    "authcheck" := "Examples/AuthCheckController.py",
    "testseams" := "Examples/TestSeams.py"
  ]

  /** What reading a path finds. */
  datatype FileState =
    | Missing                    // `exists()` is false
    | NotReadable                // `os.access(path, os.R_OK)` is false
    | ReadFails(reason: string)  // `read_text` raises; `reason` is `str(e)`
    | Contents(text: string)

  /** The requested kind after `str(...).lower().strip()`; an absent argument is `""`. */
  function Normalise(kind: Option<string>): (r: string)
    ensures IsLowerStr(r)
    ensures r == [] || (!IsSpace(r[0]) && !IsSpace(r[|r| - 1]))
  {
    var lowered := LowerStr(kind.GetOr(""));
    StripKeepsLower(lowered);
    Strip(lowered)
  }

  /** The path of a kind's example file: `BASE_DIR / <file>`. */
  function ExamplePath(baseDir: string, kind: string): string
    requires kind in FileMapping
  {
    baseDir + "/" + FileMapping[kind]
  }

  /** The tool: the example file's text, the read error as text, or the exception raised. */
  function GetExamples(files: map<string, FileState>, baseDir: string, kind: Option<string>): (r: Result<string>)
    ensures Normalise(kind) !in AllowedKinds <==> r.Err? && r.error.ValueError?
    ensures Normalise(kind) !in AllowedKinds ==>
      r == Err(ValueError("Invalid test_double_type: '" + Normalise(kind) + "'. Allowed values: " + AllowedKindsDisplay))
    ensures Normalise(kind) in AllowedKinds ==>
      var path := ExamplePath(baseDir, Normalise(kind));
      var state := if path in files then files[path] else Missing;
      && (state.Missing? ==> r == Err(FileNotFoundError("File not found: " + path)))
      && (state.NotReadable? ==> r == Err(PermissionError("Permission denied: " + path)))
      && (state.ReadFails? ==> r == Ok("Error reading file: " + state.reason))
      && (state.Contents? ==> r == Ok(state.text))
  {
    ExamplesFor(files, baseDir, Normalise(kind))
  }

  /** The tool once the kind is normalised. */
  function ExamplesFor(files: map<string, FileState>, baseDir: string, t: string): Result<string> {
    if t !in AllowedKinds then
      Err(ValueError("Invalid test_double_type: '" + t + "'. Allowed values: " + AllowedKindsDisplay))
    else
      var path := ExamplePath(baseDir, t);
      var state := if path in files then files[path] else Missing;
      match state
      case Missing => Err(FileNotFoundError("File not found: " + path))
      case NotReadable => Err(PermissionError("Permission denied: " + path))
      case ReadFails(reason) => Ok("Error reading file: " + reason)
      case Contents(text) => Ok(text)
  }

  /** Stripping a lower-case text leaves it lower-case. */
  lemma StripKeepsLower(s: string)
    requires IsLowerStr(s)
    ensures IsLowerStr(Strip(s))
  {
    var a := SkipSpace(s, 0);
    var b := TrimEnd(s, a);
    forall k | 0 <= k < b - a ensures !IsUpperLetter(s[a .. b][k]) {
      assert s[a .. b][k] == s[a + k];
    }
  }

  /** Lower-casing a lower-case text changes nothing. */
  lemma LowerStrOfLower(s: string)
    requires IsLowerStr(s)
    ensures LowerStr(s) == s
  {
  }

  /** Every allowed kind has a file, and nothing else has one. */
  lemma MappingCoversAllowed()
    ensures FileMapping.Keys == AllowedKinds
  {
  }

  /** Different kinds read different files. */
  lemma MappingInjective(a: string, b: string, baseDir: string)
    requires a in FileMapping && b in FileMapping && a != b
    ensures ExamplePath(baseDir, a) != ExamplePath(baseDir, b)
  {
    assert FileMapping[a] != FileMapping[b];
    var pa, pb := ExamplePath(baseDir, a), ExamplePath(baseDir, b);
    var n := |baseDir| + 1;
    if |pa| == |pb| {
      assert pa[n..] == FileMapping[a] && pb[n..] == FileMapping[b];
    }
  }

  /** Normalisation is stable: a normalised kind asks for the same thing again. */
  lemma NormaliseIdempotent(files: map<string, FileState>, baseDir: string, kind: Option<string>)
    ensures GetExamples(files, baseDir, Some(Normalise(kind))) == GetExamples(files, baseDir, kind)
  {
    NormalisedIsFixed(kind);
  }

  lemma NormalisedIsFixed(kind: Option<string>)
    ensures Normalise(Some(Normalise(kind))) == Normalise(kind)
  {
    var t := Normalise(kind);
    LowerStrOfLower(t);
    StripIdempotent(t);
  }

  /** A missing argument is the empty kind, which is refused. */
  lemma MissingKindRefused(files: map<string, FileState>, baseDir: string)
    ensures GetExamples(files, baseDir, None).Err?
  {
    assert Normalise(None) == [];
  }
}
