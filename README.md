# SAP chat bot: the ABAP text-analysis layer, in Dafny

This project models the part of the SAP chat bot that reads ABAP source
without parsing it: regular expressions and line scans that strip comment
blocks, cut classes and methods out of a class's source, list the
dependencies of each method, and validate a tool's arguments and build its
file path or request URL. It also models the function that splits a chat
reply into text and code parts.

The modules are:

- Text, Collections and Lines: shared vocabulary.
  - ASCII case folding and Python's whitespace set.
  - Case-insensitive keyword matching, word boundaries and `str.strip`.
  - De-duplication in first-seen order, `sorted()` of a set, subsequences.
  - `str.split`/`str.join`.
- RemoveComments: `remove_comments`, which deletes every run of three or
  more consecutive comment lines.
- GetClassSourceCode, GetSourceCode and ClassTool.
  - The comment-stripped source of a class or an object, read from a
    repository given as a map from path to content.
  - ClassTool holds the preamble the class tools share.
- ClassSpans, ClassDefTool, GetMethodList and GetMethodCode: the first
  `class … definition|implementation … endclass.` block, the method headers
  in it, and one method's `METHOD … ENDMETHOD` text.
- GetClassDefinition: `extract_class_definition`, the keep/drop line filter.
  It is an imperative loop proved against a recursive specification.
- SqlScan and GetDependencies: `extract_table_names`,
  `extract_class_references` and `get_dependencies`. The `findall` and
  de-duplication loops are methods proved against specification functions.
- SelectParts, TablesAndFields and FromTableFinding: `extract_tables_and_fields`
  of `testing_2.py`. This is the alias-aware table-to-fields dictionary with
  the `__UNMAPPED_FIELDS__` bucket. It is written as the loops of the
  Python function, proved against a fold over the SELECT blocks.
- GetTableSchema and GetExamples: argument checks, the system table, the
  OData `$filter` and URL, and the test-double kind to example-file map.
- CodeBlocks: `extract_code_blocks` of the chat front end.

Each regular expression is a deterministic scanner over `seq<char>`.
Keywords compare case-insensitively. A lazy `.*?X` stops at the nearest
following `X`. `re.search` is the leftmost position where the scanner
matches, stated with a "no match before it" predicate. `findall` and
`finditer` are recursions that resume after each match. The repository
fetch, file reads and the HTTP request are parameters or left out.

Two behaviours of the code are modelled as written:

- The method lister keeps repeated names: `findall` returns every
  header it matches (`Tools/GetMethodList.py:63-68`).
- `extract_tables_and_fields` runs its table pattern over the text after
  `FROM\s+`, so the table named right after FROM is never registered,
  although the comments at `testing_2.py:33-35` and `testing_2.py:73-75`
  (`FROM mara AS a`) and the docstring at `testing_2.py:6-8` expect it
  to be. `TablesAndFields.ExtractTablesAndFields` takes a flag: `false` is
  the code as written, `true` the corrected reading (see Findings).

## Model

| member | source | states |
|---|---|---|
| RemoveComments.SplitLines | Utilities/RemoveComments.py:18-21 | the text cut at its line starts is well formed (no empty line, `\n` only at a line's end) and joins back to the text |
| RemoveComments.SplitFlatten | Utilities/RemoveComments.py:18-21 | cutting a well-formed list of lines after joining it gives the same lines back |
| RemoveComments.RunLength | Utilities/RemoveComments.py:18 | the chain a match covers holds only blank and comment lines, ends on a comment line, and no further chain continues it |
| RemoveComments.StripBlocksDeletesLines | Utilities/RemoveComments.py:18-21 | the output lines are a subsequence of the input lines: whole lines are deleted, none are changed or reordered |
| RemoveComments.StripBlocksKeepsCode | Utilities/RemoveComments.py:18 | every code line, including a line with a `"` comment after code, survives, in order |
| RemoveComments.StripBlocksUnchanged | Utilities/RemoveComments.py:18 | the lines come out unchanged exactly when no line starts a run of three or more comment lines (the whole-text case) |
| RemoveComments.ChainStopsAtCode | Utilities/RemoveComments.py:18 | a run cannot cross a code line: the lines after one do not change the run (or its length) that starts before it |
| RemoveComments.StripBlocksSplitsAtCode | Utilities/RemoveComments.py:18-21 | the substitution on a text split after a code line is the substitution on each side, joined |
| RemoveComments.ShortRunsSurvive | Utilities/RemoveComments.py:18-21 | a stretch that starts no run of three or more comment lines and ends with a code line, or ends the text, comes out verbatim even in a text that has blocks before or after it, so runs of one or two are left alone everywhere |
| RemoveComments.BlankLineSwallowed | Utilities/RemoveComments.py:18 | a blank line before a block does not count towards the three and is deleted with the block |
| RemoveComments.ChainCoversStretch | Utilities/RemoveComments.py:18 | a stretch with no code line that ends on a comment line is one chain: when no comment line follows it before the next code line, the chain covers exactly its lines and counts its comment lines |
| RemoveComments.BlockDeleted | Utilities/RemoveComments.py:18-21 | a block of three or more comment lines, after a code line or at the start, is deleted with every one of its lines: the result is the stripped lines before it followed by the stripped lines after it |
| RemoveComments.StripBlocksIdempotent | Utilities/RemoveComments.py:18-21 | deleting blocks twice is deleting them once |
| RemoveComments.StripBlocksWellFormed | Utilities/RemoveComments.py:18-21 | the remaining lines are still a well-formed cut of a text |
| RemoveComments.RemoveCommentsIdempotent | Utilities/RemoveComments.py:15-23 | `remove_comments` applied to its own output changes nothing |
| RemoveComments.RemoveCommentsShrinks | Utilities/RemoveComments.py:15-23 | the text never grows, and it is unchanged exactly when no line starts a block of three or more comment lines |
| RemoveComments.RemoveCommentsKeepsCode | Utilities/RemoveComments.py:15-23 | the code lines of the text are kept verbatim and in order |
| RemoveComments.RemoveCommentsDeletesBlock | Utilities/RemoveComments.py:15-23 | in the text itself, such a block leaves nothing behind: the result is `remove_comments` of the text before it followed by `remove_comments` of the text after it |
| RemoveComments.StripBlocks | Utilities/RemoveComments.py:18-21 | the substitution on the cut lines: each run of three or more comment lines is deleted, and the result never has more lines than the input |
| RemoveComments.RemoveComments | Utilities/RemoveComments.py:15-23 | `remove_comments`: the lines with their blocks deleted, joined back; the text never grows |
| GetClassSourceCode.GetClassSourceCode | Utilities/GetClassSourceCode.py:20-34 | an empty name is refused before any fetch; a missing `zs4intcpq/<name lower>.clas.abap` is refused with the class's name; otherwise the result is `remove_comments` of that file |
| GetClassSourceCode.ClassSourceIsStripped | Utilities/GetClassSourceCode.py:32-34 | the returned source has no comment block left |
| GetClassSourceCode.ClassSourceReadsOnlyItsFile | Utilities/GetClassSourceCode.py:23-27 | only the class's own file decides the answer: repositories that agree on it give the same result |
| GetClassSourceCode.ClassNameCaseInsensitive | Utilities/GetClassSourceCode.py:26 | a class name and its lower-case form read the same file |
| GetSourceCode.GetSourceCode | Tools/GetSourceCode.py:24-45 | an empty name is refused first; a type outside clas/intf/tabl/prog/ddls is refused; the result exists exactly when `zs4intcpq/<name lower>.<type lower>.abap` is in the repository, and is its comment-stripped content |
| GetSourceCode.UpperCaseTypeRejected | Tools/GetSourceCode.py:27-31 | the type is checked before lower-casing, so `CLAS` is refused |
| GetSourceCode.AcceptedTypeIsLowerCase | Tools/GetSourceCode.py:27-38 | an accepted type is already lower case, so the file name uses it verbatim |
| GetSourceCode.SourceIsStripped | Tools/GetSourceCode.py:40-45 | the returned source has no comment block left |
| ClassTool.ToolSource | Tools/ClassDefTool.py:37-46 | the shared preamble: an empty class name is refused, a fetch error propagates, an empty source is refused with "not found or source code retrieval failed"; it succeeds exactly when the name and the fetched source are non-empty |
| ClassTool.MissingFileReported | Tools/GetMethodList.py:44 | a class whose file is missing is refused by the fetch, with the fetch's message |
| ClassSpans.ClassHeaderAt | Tools/ClassDefTool.py:49-51 | `class\s+\w+\s+<kind>` at a position: `class`, whitespace, a word, whitespace, the kind keyword |
| ClassSpans.ClassSpanAt | Tools/ClassDefTool.py:49-51 | the block ends just after the nearest `endclass.` following the header; with no `endclass.` there is no block |
| ClassSpans.ClassSpanSearch | Tools/ClassDefTool.py:52 | `re.search`: a block at the returned start, and no block starting earlier; none when no position matches |
| ClassSpans.ClassSpanShape | Tools/ClassDefTool.py:49-55 | the text of a block starts with `class`, ends with `endclass.` and is at least 14 characters long |
| Search.First | Tools/ClassDefTool.py:52 | `re.search` tries each start in turn: a position it returns lies in the searched range and the pattern matches there |
| Search.FirstIsLeftmost | Tools/ClassDefTool.py:52 | the search is leftmost: when the pattern matches at some position in range, it returns a position at or before that one |
| ClassDefTool.ClassDefTool | Tools/ClassDefTool.py:37-59 | the preamble's errors propagate; no definition block raises ValueError; a fetched source with a definition block always gives a result, the pair of the first block's text and the unchanged source |
| ClassDefTool.ClassDefinitionIsFirst | Tools/ClassDefTool.py:49-55 | the returned block is the leftmost, and no `endclass.` lies between its header and its end |
| GetMethodList.HeaderAt | Tools/GetMethodList.py:63-65 | `^\s*METHOD\s+([\w~]+)\s*\.` at a line start: `method`, whitespace, a `[\w~]` name, optional whitespace and a dot |
| GetMethodList.Headers | Tools/GetMethodList.py:67 | `findall`: every name is non-empty and made of `[\w~]` |
| GetMethodList.DeclarationsAndEndsAreNotHeaders | Tools/GetMethodList.py:64 | lines `METHODS foo.` and `ENDMETHOD.` never yield a name |
| GetMethodList.FirstHeaderReported | Tools/GetMethodList.py:67 | the first header at or after a position is reported first, then the scan resumes after it, so repeated names stay |
| GetMethodList.NoHeadersIff | Tools/GetMethodList.py:67-74 | there are no names exactly when no header starts in the block |
| GetMethodList.ImplementationBlock | Tools/GetMethodList.py:52-55 | a block exists exactly when the implementation search finds one, and it is a `class … endclass.` text |
| GetMethodList.GetMethodList | Tools/GetMethodList.py:40-74 | preamble errors; no implementation block raises ValueError; no header raises ValueError; otherwise it returns the class name and the lower-cased names in text order, repeats kept, all non-empty |
| GetMethodList.LowerNames | Tools/GetMethodList.py:68 | lower-casing keeps names non-empty and made of `[\w~]` |
| GetMethodCode.NameThenBody | Tools/GetMethodCode.py:54 | `<name>\b.*?ENDMETHOD`: the name, case-insensitive, then a word boundary, then the nearest `endmethod` |
| GetMethodCode.QualifierEnd | Tools/GetMethodCode.py:54 | `\w+~`: a run of word characters and then `~` |
| GetMethodCode.MethodCodeAt | Tools/GetMethodCode.py:54 | the pattern at a position: `method`, whitespace, an optional qualifier, then the name and the body |
| GetMethodCode.MethodCodeSearch | Tools/GetMethodCode.py:57 | `re.search`: a match at the returned start and none earlier; none when no position matches |
| GetMethodCode.GetMethodCode | Tools/GetMethodCode.py:38-64 | empty class name, empty method name and preamble errors are raised in that order; no match raises ValueError; with both names given, a fetched source that has a match always gives a result, the text of the leftmost match |
| GetMethodCode.MethodCodeShape | Tools/GetMethodCode.py:54-60 | the returned text starts with `method` and ends with `endmethod`; no other `endmethod` starts in it outside the qualifier and the name |
| GetMethodCode.PlainHeaderMatches | Tools/GetMethodCode.py:54 | `METHOD <name>` with a word boundary and a later `ENDMETHOD` is a match |
| GetMethodCode.QualifiedHeaderMatches | Tools/GetMethodCode.py:54 | `METHOD <iface>~<name>` with a word boundary and a later `ENDMETHOD` is a match |
| GetMethodCode.LongerWordDoesNotMatch | Tools/GetMethodCode.py:54 | a request for `get` never matches the header `METHOD get_data` |
| GetClassDefinition.TrimLines | Tools/GetClassDefinition.py:17-53 | the loop's state after a list of lines; at most one kept line per input line |
| GetClassDefinition.ExtractClassDefinition | Tools/GetClassDefinition.py:11-55 | the loop over the lines computes exactly the kept lines of the specification, joined with `\n` |
| GetClassDefinition.KeptAreStrippedInOrder | Tools/GetClassDefinition.py:17-55 | the output lines are a subsequence of the stripped input lines |
| GetClassDefinition.NothingBeforeFirstHeader | Tools/GetClassDefinition.py:19-53 | while no header, section or methods line has occurred, nothing is kept and keeping stays off |
| GetClassDefinition.KeptAreNeverSkipped | Tools/GetClassDefinition.py:32-37 | no kept line falls under the macro/types/data/class-data/constants rule |
| GetClassDefinition.LineFate | Tools/GetClassDefinition.py:26-53 | one more line: a skipped one turns keeping off and is dropped; a header, section or methods line is kept and turns keeping on; any other line is kept iff keeping is on |
| GetClassDefinition.DataRuleBeforeMethodsRule | Tools/GetClassDefinition.py:32-49 | a `methods` line that mentions `data` is dropped, because that rule is tried first |
| GetClassDefinition.OutputLines | Tools/GetClassDefinition.py:55 | splitting the output at `\n` gives back exactly the kept lines |
| GetClassDefinition.KeptHaveNoBreak | Tools/GetClassDefinition.py:17-22 | no kept line contains a line break |
| Lines.JoinSplit | Tools/GetClassDefinition.py:55 | joining the pieces of a split with its separator gives back the text |
| Lines.SplitJoin | Tools/GetClassDefinition.py:17 | splitting a join of separator-free pieces gives back the pieces |
| SqlScan.FindWord | Utilities/GetDependencies.py:24 | the nearest whole-word, case-insensitive occurrence of a keyword, and none before it |
| SqlScan.StopAt | Utilities/GetDependencies.py:24 | the statement's lazy tail stops at the nearest stop word or `$` |
| SqlScan.SelectAt | Utilities/GetDependencies.py:23-26 | a statement starts at a whole-word SELECT with a whole-word FROM after it; without either there is none |
| SqlScan.SelectSpans | Utilities/GetDependencies.py:43 | `finditer`: the statements found do not overlap and are in text order; none when no position matches |
| SqlScan.SelectStatements | Utilities/GetDependencies.py:43-44 | one text per matched statement, each beginning with SELECT in any letter case |
| SqlScan.NoSelectNoStatements | Utilities/GetDependencies.py:43 | text without a whole-word SELECT has no statement |
| SqlScan.JoinKeywordAt | Utilities/GetDependencies.py:33-36 | FROM or an optionally qualified, optionally OUTER JOIN, at a word boundary |
| SqlScan.TableRefAt | Utilities/GetDependencies.py:33-36 | the name captured after the keyword and its whitespace is a non-empty word |
| SqlScan.TableNames | Utilities/GetDependencies.py:47 | `findall`: every captured table name is a word |
| GetDependencies.ExtractTableNames | Utilities/GetDependencies.py:7-54 | the two loops compute the de-duplicated, upper-cased table hits; the result is duplicate-free, upper-case and made of words, in order of first appearance |
| GetDependencies.AddTables | Utilities/GetDependencies.py:48-52 | the inner loop appends each name's upper-case form unless already seen: the result is the de-duplication of the earlier list followed by the upper-cased names, and the seen set holds exactly its members |
| GetDependencies.NoSelectNoTables | Utilities/GetDependencies.py:43-54 | text with no SELECT gives no table |
| GetDependencies.TableHits | Utilities/GetDependencies.py:43-47 | every table name the two loops visit is a word of `[A-Za-z0-9_]` characters |
| GetDependencies.InstantiationAt | Utilities/GetDependencies.py:71-74 | the instantiation pattern at a word boundary captures a class-like name (`CL_`/`ZCL_` in any case, then more) |
| GetDependencies.StaticCallAt | Utilities/GetDependencies.py:81-84 | the static-call pattern captures a class-like name before `=>`, a method and `(` |
| GetDependencies.ClassHits | Utilities/GetDependencies.py:87-93 | every hit of either pattern is class-like |
| GetDependencies.ExtractClassReferences | Utilities/GetDependencies.py:56-104 | the loop computes the de-duplicated, upper-cased instantiations followed by the static calls; every result starts with `CL_` or `ZCL_` and none repeats |
| GetDependencies.InstantiationsFirst | Utilities/GetDependencies.py:87-104 | the de-duplicated instantiations are a prefix of the result: grouped by kind, not in text order |
| GetDependencies.UpperClassLike | Utilities/GetDependencies.py:71-97 | upper-casing a captured `CL_\w+` or `ZCL_\w+` name gives a `ClassReference`: an upper-case word beginning with `CL_` or `ZCL_` and going on after it |
| GetDependencies.UpperClassReferences | Utilities/GetDependencies.py:95-102 | every entry of the de-duplicated, upper-cased list of captured names is a `ClassReference` |
| GetDependencies.InterfaceHits | Utilities/GetDependencies.py:130-131 | every interface captured after `INTERFACES` is a word |
| GetDependencies.MethodHeaderAt | Utilities/GetDependencies.py:134 | `\bMETHOD\s+([/\w~]+)\s*\.`: the name is a `[/\w~]` run followed by a dot |
| GetDependencies.FunctionCallAt | Utilities/GetDependencies.py:161 | `CALL\s+FUNCTION\s+'(\w+)'`: the captured name is a word between quotes |
| GetDependencies.BodyHead | Utilities/GetDependencies.py:147-148 | `METHOD\s+<name>`: a head found at a position starts with `method`, has at least one whitespace character, and ends with the name |
| GetDependencies.MethodBodyAt | Utilities/GetDependencies.py:147-150 | a match at a position starts there with `method`, ends with `endmethod`, and is at least 16 characters long |
| GetDependencies.MethodBodyAtNearest | Utilities/GetDependencies.py:147-150 | a match at a position exists exactly when the head `METHOD\s+<name>` is there and an ENDMETHOD follows it; the match ends with the nearest such ENDMETHOD, none lying between the name and it (the lazy `.*?`) |
| GetDependencies.MethodBodySearch | Utilities/GetDependencies.py:147-150 | `re.search`: the result is a match at or after the start |
| GetDependencies.MethodBodySearchLeftmost | Utilities/GetDependencies.py:147-150 | `re.search` is leftmost: no position before the result matches, and no result means no position matches |
| GetDependencies.MethodBody | Utilities/GetDependencies.py:150 | a found body starts with the head `METHOD\s+<name>` and ends with `endmethod`, and no other ENDMETHOD starts between the name and that final one |
| GetDependencies.SplitLinesBlank | Utilities/GetDependencies.py:154 | every line of `splitlines()` is blank exactly when the text is blank |
| GetDependencies.PySplitLines | Utilities/GetDependencies.py:154 | `splitlines()`: no lines exactly for the empty text, never more lines than characters, and no line keeps a line-break character |
| GetDependencies.CodeLineCount | Utilities/GetDependencies.py:154-155 | the number of non-blank lines: at most the number of lines, and zero exactly when the body is only whitespace |
| GetDependencies.MethodDepsOf | Utilities/GetDependencies.py:151-167 | a method's entry: its body as source, duplicate-free tables and classes, and the upper-cased called function modules as a set |
| GetDependencies.GetDependencies | Utilities/GetDependencies.py:117-169 | an empty name is refused first; fetch errors propagate; a method whose body is not found fails with AttributeError; otherwise the interfaces are the upper-cased `INTERFACES` names, the keys are exactly the upper-cased method names, and each entry is what the analyzer records for that body |
| SelectParts.FirstFrom | testing_2.py:28 | the lazy field group stops at the first place followed by `\s+FROM\s` |
| SelectParts.SplitAt | testing_2.py:27-30 | the split pattern at a SELECT: whitespace, the field group, whitespace, FROM and whitespace, the field group stopping at the first such FROM |
| SelectParts.SplitSearch | testing_2.py:61 | `re.search` of the split pattern: the leftmost match, and none before it |
| SelectParts.FieldsText | testing_2.py:65-69 | `group(1).strip()`: no longer than the text between SELECT and FROM, no whitespace at either end, and empty exactly when that text is all whitespace |
| SelectParts.FromJoinText | testing_2.py:66-70 | `group(2).strip()`: no longer than the text after FROM, no whitespace at either end, and empty exactly when only whitespace follows FROM |
| SelectParts.FromClauseText | testing_2.py:72-78 | the corrected reading of the FROM clause keeps its keyword: the text begins with FROM in any letter case |
| SelectParts.TableAliasAt | testing_2.py:36-40 | the table reference with its optional `AS alias`; the alias is empty exactly when the optional group does not match |
| SelectParts.AliasAt | testing_2.py:38 | the optional `\s+AS\s+([A-Za-z0-9_]+)`: when found, AS follows at least one whitespace character and the alias is a non-empty word after it |
| SelectParts.TableAliasHits | testing_2.py:78 | `findall`: every table and every non-empty alias is a word |
| SelectParts.FieldRefAt | testing_2.py:45-47 | `alias~field` between word boundaries, both parts words |
| SelectParts.FieldRefs | testing_2.py:93 | `finditer` of `alias~field`: every alias and every field found is a word |
| SelectParts.RemoveQualified | testing_2.py:111 | removing `word~word` leaves only characters of the input and never lengthens it |
| SelectParts.CollapseSpaces | testing_2.py:113 | whitespace runs become one space: no two adjacent whitespace characters remain |
| SelectParts.StripCommaSpace | testing_2.py:113 | no comma or space is left at either end |
| Lines.SplitOn | testing_2.py:116 | `split(",")` (and `split("\n")` of the class-definition filter): the pieces contain no separator, and there is at least one |
| SelectParts.NonEmptyStripped | testing_2.py:116 | each candidate is a non-empty stripped piece |
| SelectParts.RawCandidates | testing_2.py:111-116 | the comma-separated candidates left after removing qualified fields: none is empty |
| SelectParts.DropChars | testing_2.py:125 | `@`, parentheses and whitespace are removed and every other character kept |
| SelectParts.CleanCandidate | testing_2.py:125 | the cleaned candidate is upper case and holds no `@`, parenthesis or whitespace |
| SelectParts.FinalCandidates | testing_2.py:122-127 | a candidate survives exactly when it is the cleaned form of a raw candidate that is non-empty and not DISTINCT, SINGLE or `*` |
| SelectParts.CandidateShape | testing_2.py:125-127 | a surviving candidate is non-empty, upper-case, not ignored and free of dropped characters |
| TablesAndFields.AliasMap | testing_2.py:76-90 | the alias map's keys are the aliases, or the table name when there is none; every alias maps to a table of the block |
| TablesAndFields.AliasMapLastWins | testing_2.py:90 | the last reference using a key decides its table |
| TablesAndFields.Parts | testing_2.py:59-78 | a block has parts exactly when the split pattern matches it; otherwise it is skipped (`continue`) |
| TablesAndFields.RegisterTables | testing_2.py:87-88 | every table named gets an entry, new ones empty, existing ones unchanged |
| TablesAndFields.CreditTables | testing_2.py:93-98 | each `alias~field` goes to its alias's table |
| TablesAndFields.CreditUnmapped | testing_2.py:99-101 | each `alias~field` with an unknown alias goes to the unmapped set |
| TablesAndFields.AssignCandidates | testing_2.py:130-139 | unqualified candidates go to the sole table, or all to the unmapped set, and nothing is dropped |
| TablesAndFields.Apply | testing_2.py:72-139 | one block's update: the tables it names get entries, and no field already collected is dropped |
| TablesAndFields.BlockStep | testing_2.py:61-63 | a block the split pattern does not match changes nothing |
| TablesAndFields.Fold | testing_2.py:56-139 | no blocks leave the empty state; each further block only adds tables and fields and drops none |
| TablesAndFields.FoldKeys | testing_2.py:78-90 | a table is a key exactly when some block names it, even with no fields |
| TablesAndFields.ApplySoleTable | testing_2.py:130-134 | one block with exactly one alias: every unqualified candidate goes to that table |
| TablesAndFields.ApplyNoSoleTable | testing_2.py:137-139 | one block with zero or several aliases: every unqualified candidate is unmapped |
| TablesAndFields.QualifiedFieldReported | testing_2.py:93-98 | `alias~field` in any block ends up under the table the alias names in that block |
| TablesAndFields.UnknownAliasUnmapped | testing_2.py:99-101 | `alias~field` with an alias the block does not define ends up unmapped |
| TablesAndFields.UnqualifiedToSoleTable | testing_2.py:130-134 | an unqualified field of a one-alias block ends up under that table |
| TablesAndFields.UnqualifiedUnmapped | testing_2.py:137-139 | an unqualified field of a block with zero or several aliases ends up unmapped |
| TablesAndFields.ApplySound | testing_2.py:93-139 | after one block, a field under a table was there before, or the block routes it there (an `alias~field` whose alias names that table, or an unqualified candidate with that table the only one); an unmapped field was unmapped before, or comes from an unknown alias or from candidates without a sole table |
| TablesAndFields.FoldFieldsSound | testing_2.py:59-139 | every field under a table in the result was routed there by some block, qualified through an alias of that table or unqualified with that table the block's only one |
| TablesAndFields.FoldUnmappedSound | testing_2.py:59-139 | every unmapped field comes from some block: an `alias~field` with an unknown alias, or an unqualified candidate in a block without a sole table |
| TablesAndFields.FoldUpper | testing_2.py:82-125 | every table name and field is upper-case |
| TablesAndFields.FinalResultUnique | testing_2.py:142-148 | the returned dictionary is determined by the collected sets |
| TablesAndFields.ProcessBlock | testing_2.py:59-139 | one iteration of the block loop, with its inner loops, computes exactly one step of the fold, for either reading of the FROM clause |
| TablesAndFields.RegisterRefs | testing_2.py:78-90 | the FROM/JOIN loop computes the registered tables and the alias map |
| TablesAndFields.CreditFields | testing_2.py:93-101 | the `alias~field` loop computes the credited tables and the unmapped set |
| TablesAndFields.FilterCandidates | testing_2.py:122-127 | the filter loop computes the surviving candidates in order |
| TablesAndFields.AssignUnqualified | testing_2.py:130-139 | the two assignment loops compute the candidates' assignment |
| TablesAndFields.ExtractTablesAndFields | testing_2.py:4-150 | with the flag false (the table pattern over `group(2)`, as written at testing_2.py:66-78) or true (over the whole FROM clause, the corrected reading), the function's loops compute sorted field lists for exactly the tables the fold registers, plus the sorted unmapped list under `__UNMAPPED_FIELDS__` exactly when it is non-empty |
| TablesAndFields.Finalize | testing_2.py:142-148 | the final loop sorts each field set, and adds the unmapped key only when there are unmapped fields |
| Collections.Dedup | Utilities/GetDependencies.py:39-52 | the seen-set idiom: duplicate-free, the same members, in order of first appearance |
| Collections.DedupAfterDedup | Utilities/GetDependencies.py:38-52 | continuing the seen-set loop from an already de-duplicated list de-duplicates the whole sequence, so one seen set can serve every statement |
| Collections.DedupSnoc | Utilities/GetDependencies.py:50-52 | one more element is appended exactly when it has not been seen |
| Collections.Insert | testing_2.py:144 | inserting into a sorted list keeps it sorted and adds exactly that element |
| Collections.LexLessIrreflexive | testing_2.py:144 | Python's `<` on strings, which `sorted` uses, never holds between a string and itself |
| Collections.LexLessTransitive | testing_2.py:144 | that order is transitive |
| Collections.LexLessTotal | testing_2.py:144 | any two different strings are ordered one way or the other |
| Collections.SortSet | testing_2.py:144-148 | `sorted` of a set: strictly increasing, and holding exactly the set's elements |
| Collections.SortedListUnique | testing_2.py:144-148 | `sorted()` of a set has one answer |
| FromTableFinding.FromTableFirst | testing_2.py:66-78 | with the FROM clause itself scanned, the table right after FROM is the block's first reference |
| FromTableFinding.FromTableRegistered | testing_2.py:66-88 | with the FROM clause scanned, the table after FROM in any block gets an entry |
| FromTableFinding.AsWrittenMissesFromTable | testing_2.py:28-78 | as written, `SELECT matnr FROM mara` gives no MARA entry and an unmapped MATNR |
| FromTableFinding.CorrectedRegistersFromTable | testing_2.py:28-78 | with the FROM clause scanned, the same statement gives MARA with MATNR and nothing unmapped |
| GetTableSchema.SystemFor | Tools/GetTableSchema.py:67-85 | only RHA, D2A and DHA are known; client 300 for RHA, 110 for the others |
| GetTableSchema.TableSchemaRequest | Tools/GetTableSchema.py:56-108 | a missing or empty table name is refused first; the request exists exactly when the upper-cased system id (RHA by default) is known; otherwise the message names it; the URL is built from the chosen system |
| GetTableSchema.DefaultSystemIsRha | Tools/GetTableSchema.py:59 | an absent system id is RHA |
| GetTableSchema.SystemIdCaseInsensitive | Tools/GetTableSchema.py:59 | a system id and its upper-case form give the same request |
| GetTableSchema.KeyFieldsByDefault | Tools/GetTableSchema.py:95-96 | without a non-empty list of fields the filter is `keyflag eq true` |
| GetTableSchema.FieldFilterSnoc | Tools/GetTableSchema.py:90-94 | one more field appends ` or fieldname eq '<field>'`: the clauses follow list order |
| GetTableSchema.SingleFieldFilter | Tools/GetTableSchema.py:90-94 | a single field gives a single clause |
| GetTableSchema.SchemaUrlParts | Tools/GetTableSchema.py:98-108 | the URL is the host, the service path and the table condition, then the filter, then the client |
| GetExamples.Normalise | Tools/GetExamples.py:32 | the normalised kind is lower case with no surrounding whitespace; an absent kind is empty |
| GetExamples.GetExamples | Tools/GetExamples.py:32-67 | a kind outside the six is refused, and only it raises ValueError; a missing file raises FileNotFoundError, an unreadable one PermissionError, a failing read returns "Error reading file: …" and a readable one its text |
| GetExamples.MappingCoversAllowed | Tools/GetExamples.py:35-52 | the mapping's keys are exactly the allowed kinds |
| GetExamples.MappingInjective | Tools/GetExamples.py:45-52 | different kinds read different files |
| GetExamples.NormaliseIdempotent | Tools/GetExamples.py:32 | asking again with the normalised kind gives the same answer |
| GetExamples.MissingKindRefused | Tools/GetExamples.py:32-39 | an absent argument is refused |
| CodeBlocks.BlockAt | streamlit_app.py:84-86 | a fenced block: three backticks, an optional word, a line break, and code up to the nearest three backticks, with none inside |
| CodeBlocks.RawParts | streamlit_app.py:87 | `re.split` with one capturing group gives an odd number of pieces; `SplitInterleavesCodes` places the code at the odd positions and `SplitRejoins` says what the text pieces hold |
| CodeBlocks.Codes | streamlit_app.py:84-87 | no captured code contains three backticks |
| CodeBlocks.SplitInterleavesCodes | streamlit_app.py:87 | `re.split` with one group gives `2k + 1` parts for `k` blocks, with the captured code at the odd positions |
| CodeBlocks.MatchTexts | streamlit_app.py:84-87 | the whole text of every match, one per captured code, each opening and closing with three backticks |
| CodeBlocks.SplitRejoins | streamlit_app.py:87 | nothing of the reply is lost or moved: the text parts of the split, with the matched blocks put back between them, give the reply again |
| CodeBlocks.LabelParts | streamlit_app.py:89-97 | the loop labels part `i` from the first label, alternating, with its stripped content |
| CodeBlocks.ExtractCodeBlocksAsWritten | streamlit_app.py:79-97 | as written: the first part is labelled code iff the reply starts with three backticks |
| CodeBlocks.ExtractCodeBlocks | streamlit_app.py:79-97 | corrected: the first part is always labelled text |
| CodeBlocks.CodeIsLabelledCode | streamlit_app.py:84-97 | corrected: the parts labelled code are exactly the stripped code of the blocks, in order, and all other parts are text |
| CodeBlocks.LeadingBlockGivesEmptyText | streamlit_app.py:87-90 | a reply starting with a block starts with three backticks, and its first split part is empty |
| CodeBlocks.AsWrittenLabelsCodeAsText | streamlit_app.py:87-95 | as written, a reply starting with a block gets the empty first part labelled code and every block's code labelled text |
| CodeBlocks.SingleBlockExample | streamlit_app.py:84-95 | on "```\nx```" the labels as written are code, text, code; corrected they are text, code, text |

## Left out

- Character classes are ASCII. `\w`, `str.lower`/`upper` and case-insensitive matching use ASCII letters, digits and `_` only; Python's are Unicode. Whitespace is Python's `str.isspace` set.
- The GitHub fetch is a map from file path to content. The first document with the exact path is its entry, and branch, repository name and credentials are not modelled.
- GetSourceCode.GetSourceCode: the comment stripper this tool imports (`Tools.RemoveComments`) is not part of this model; it is taken to be the same `remove_comments` as the class-source utility uses.
- GetSourceCode.GetSourceCode and GetExamples.GetExamples: the allowed set in the error message is shown in one fixed order; Python's set display order is not fixed.
- GetMethodCode.GetMethodCode: method names are restricted to `[\w~]` characters, because the name is spliced into the pattern unescaped and other characters would change the pattern itself.
- GetMethodCode.MethodCodeShape: "ENDMETHOD exactly once, at the end" is stated outside the optional qualifier and the name, because a qualifier or a name may itself contain `endmethod`.
- GetDependencies.GetDependencies: the result's key order (dict insertion order) is not modelled (a `map`), and a repeated header overwrites the same entry. `function_modules` is a set, because `list(set(...))` has no fixed order.
- GetDependencies.MethodBody: the body pattern is built from the upper-cased name without escaping; the model matches the name literally, so a name containing regex metacharacters other than `/`, `~` and `\w` is outside the model (the header pattern admits only those).
- TablesAndFields.ExtractTablesAndFields: the key order of the returned dict is not modelled (a `map`). A real table named `__UNMAPPED_FIELDS__` is overwritten by the unmapped list when that list is non-empty, as in the source.
- TablesAndFields.ExtractTablesAndFields: `TableAliasHitsTables` (every alias target is a table the plain table pattern would find) does not hold, because an alias literally named `join` or `from` changes what the alias pattern consumes, and is not claimed.
- GetTableSchema.TableSchemaRequest: the HTTP request, its response handling (Tools/GetTableSchema.py:110-123), the host names (a parameter) and the user name and password are left out. An explicit `None` system id (`None.upper()` raising AttributeError) is not modelled; absent means RHA.
- GetExamples.GetExamples: the file system is a parameter mapping a path to what reading it finds; `BASE_DIR` is a parameter.
- CodeBlocks.ExtractCodeBlocks: the result is a list of `(kind, content)` pairs rather than dictionaries.
- Tools/GetInterfaceDefinition.py is not part of this model: it wraps `get_interface_source_code`, which no shown file defines.
- The Streamlit UI, the agent graph, the LLM clients, the token manager, prompt texts and example files are not part of this model; they are I/O, network and configuration.

## Findings

| source | as written | input that shows it | evidently intended | confidence | as-written member | corrected member |
|---|---|---|---|---|---|---|
| testing_2.py:28-78 | the table pattern runs over the split pattern's second group, which starts after `FROM\s+`, so the table right after FROM is never seen | `SELECT matnr FROM mara` gives `{"__UNMAPPED_FIELDS__": ["MATNR"]}` | `{"MARA": ["MATNR"]}`: the FROM table registered and given the unqualified field | not executed | FromTableFinding.AsWrittenMissesFromTable | FromTableFinding.CorrectedRegistersFromTable |
| streamlit_app.py:87-93 | the first label is code when the reply starts with three backticks, but `re.split` always yields the text before the first block first, so every label is inverted | "```\nx```" splits into `""`, `"x"`, `""`, labelled code, text, code | the first part is always text, so captured code is always labelled code | not executed | CodeBlocks.AsWrittenLabelsCodeAsText | CodeBlocks.CodeIsLabelledCode |
