# tf_docs extraction pipeline in Dafny

This project models the extraction pipeline of `tf_docs` (parse.go). The pipeline takes the HCL
syntax trees of the `.tf` files of a Terraform module directory. It turns them into one `TFModule`
documentation record, which holds:

- the module's variables, outputs, resources and sub-module references;
- its description, taken from the comments;
- its Path and Link, computed from where the directory sits below the root.

The Go code is imperative, and so is the model. Every extractor is a `method` with the source's
loop, proved against a pure specification function. The properties the source promises are lemmas
about those functions.

- `GoStrings` (go_strings.dfy): the parts of Go's `strings` package the pipeline uses, on code
  points: HasPrefix/HasSuffix, TrimPrefix/TrimSuffix, TrimSpace with `unicode.IsSpace`, Join, Split
  by one character, and Replace for the two uses in FindAndParse.
- `HclAst` (hcl_ast.dfy): the abstract HCL tree. A file is its top-level items and its comment
  groups; an item is raw key tokens, an object or other body, and an optional lead comment group.
  An attribute value is a literal, a list of literal or other nodes, or something else.
- `TfDocs` (tf_docs.dfy): the records (`TFModule`, `Variable`, `Output`, `Resource`, `Module`,
  `Comment`, `Value`), the keywords and attribute names, and the error kinds with their messages.
- `Comments` (comments.dfy): tidyComment, parseComment and extractComments.
- `Values` (values.dfy): trimStrings, parseKeys, parseValues, extractValues and extractElement.
- `Classify` (classify.dfy): the four classifiers.
- `FailFast` (fail_fast.dfy): runs that stop at the first failing step. Parse walks its files this
  way, and FindAndParse its module directories.
- `Assemble` (assemble.dfy): extractDescription and Parse.
- `Layout` (layout.dfy): ListModuleFiles' `.tf` filter, the Path and Link of FindAndParse, and
  FindAndParse's loop over the module directories.

Go map lookups that return a zero value are modelled by `Classify.Names` (no parts) and
`Classify.Attr` (`""`). The source's panic conditions are preconditions, of the methods and of
the spec functions alike: `name[0]`, `keys[1]`, `rawKeys[0]` and `item.Keys[0]` must exist. The
spec functions state them through predicates such as `Values.AttributesKeyed`, `Values.ItemKeyed`,
`Classify.OutputsSafe` and its siblings, `Assemble.ParseReady` and `Layout.FindReady`, or
directly, as `Values.KeyMap` does with `|rawKeys| >= 1`. Two other preconditions choose the case a
function describes: `Assemble.Collected` needs a run in which no file fails (`FailFast.Clean`), and
`TfDocs.Message` excludes the syntax error, whose wording comes from the parser.
Whether a run of files or directories could panic is summarised as an `Unsafe` step
(`FailFast.Step`). Parse and FindAndParse require that no step reached is unsafe.

Where the code and its documentation differ, the model follows the code:

- On a missing `type` or `source`, a classifier returns the records built so far together with
  the error (parse.go:325-329, 253-256). It does not discard them.
- trimStrings is not a matched-pair strip (parse.go:480-486). It removes an escaped quote from
  either end, and then a plain quote from either end, each at most once and independently.
  `Values.UnquotedOneSided` shows that a quote on one side only is removed.
- The module classifier's missing-source error uses the variable wording (parse.go:255). See
  `Classify.ModulesOfMeaning`.

## Model

| member | source | states |
|---|---|---|
| GoStrings.HasPrefixMeaning | parse.go:447-450 | strings.HasPrefix: s starts with the prefix exactly when s is the prefix followed by some string |
| GoStrings.HasSuffixMeaning | parse.go:126 | strings.HasSuffix: s ends with the suffix exactly when s is some string followed by the suffix |
| GoStrings.TrimPrefix | parse.go:447-451 | strings.TrimPrefix: the result is the input after the prefix when the input starts with it, else the whole input |
| GoStrings.TrimSuffix | parse.go:452 | strings.TrimSuffix: the result is the input without a trailing suffix, sitting at offset 0 of the input |
| GoStrings.TrimPrefixOf | parse.go:448 | trimming a prefix from that prefix followed by x gives back x |
| GoStrings.TrimSuffixOf | parse.go:452 | trimming a suffix from x followed by that suffix gives back x |
| GoStrings.TrimSpace | parse.go:454 | strings.TrimSpace: the result has no white space at either end |
| GoStrings.TrimSpaceTrims | parse.go:454 | what TrimSpace keeps sits in the input with only white space before and after it |
| GoStrings.TrimSpaceExact | parse.go:454 | any white space around a text without outer white space is exactly what TrimSpace removes |
| GoStrings.Split | parse.go:97-98 | strings.Split yields at least one piece, so the last segment of a module directory always exists |
| GoStrings.SplitPieces | parse.go:97 | no piece of a Split contains the separator |
| GoStrings.JoinSplit | parse.go:97-104 | joining the pieces of a Split with the separator gives back the string |
| GoStrings.SplitJoin | parse.go:97-104 | strings.Join and strings.Split are inverse: splitting a join of separator-free pieces gives back the pieces |
| GoStrings.JoinEndsWithLast | parse.go:97-98 | a join ends with its last part |
| GoStrings.JoinPair | parse.go:421 | joining two strings puts the separator once between them |
| GoStrings.SplitAt | parse.go:97 | splitting at a separator at index i splits the text before it and the text after it independently |
| GoStrings.SplitConcat | parse.go:97 | the pieces of a + "/" + b are the pieces of a followed by the pieces of b |
| GoStrings.SplitNoSeparator | parse.go:97-98 | a string without the separator is a single piece |
| GoStrings.ReplaceAll | parse.go:106 | strings.Replace(s, "/", "-", -1): same length, every occurrence replaced and nothing else changed |
| GoStrings.RemoveFirst | parse.go:107-108 | strings.Replace(s, "_", "", 1): unchanged without an underscore, otherwise one character shorter |
| GoStrings.RemoveFirstAt | parse.go:107-108 | at the first occurrence of the character, exactly that character is removed and the rest kept in place |
| GoStrings.RemoveFirstContents | parse.go:107-108 | when the character occurs, the result is the input without its first occurrence |
| GoStrings.FirstIndex | parse.go:108 | the first occurrence of a character that occurs: it is there, and nowhere before |
| Comments.StripMarkersInfix | parse.go:445-453 | removing the markers keeps a contiguous piece of the comment: everything after `//` for a line comment, the whole comment when it starts with neither marker |
| Comments.TidyComment | parse.go:445-456 | a tidied comment has no white space at either end |
| Comments.TidyCommentInfix | parse.go:445-456 | a tidied comment is one contiguous piece of the raw comment, so its interior line breaks survive |
| Comments.TidyLineComment | parse.go:447-449 | a `//` comment becomes its text with white space trimmed |
| Comments.TidyBlockComment | parse.go:450-453 | a `/* */` comment loses both markers, then white space is trimmed |
| Comments.StripBlockMarkers | parse.go:450-453 | the markers of `/*` text `*/` strip to exactly text |
| Comments.TidyUnmarked | parse.go:445-456 | a comment with neither leading marker only has its white space trimmed |
| Comments.TidyLineExact | parse.go:445-456 | `//` followed by white space, a text and white space tidies to exactly that text |
| Comments.TidyBlockExact | parse.go:445-456 | `/*` white space, text, white space `*/` tidies to exactly that text, including its interior line breaks |
| Comments.TidyTrailingSpace | parse_test.go:1041-1042 | "// Trailing space   " tidies to "Trailing space" |
| Comments.TidyEntries | parse.go:464-468 | the loop yields every comment of the group tidied, in order |
| Comments.GroupOfOne | parse.go:458-477 | a group of one comment reads as that comment tidied, at the group's position |
| Comments.GroupOfTwo | parse.go:464-470 | a group of two comments reads as both tidied, separated by one space |
| Comments.GroupOfTwoLines | parse_test.go:1104-1122 | the group "// Hello", "// World" reads "Hello World" |
| Comments.ParseComment | parse.go:458-477 | a nil group yields the zero Comment and an error; otherwise the tidied entries joined by single spaces, with the group's line and column, and no error |
| Comments.GroupComments | parse.go:430-443 | extractComments yields at most one Comment per group |
| Comments.GroupCommentsOfPresent | parse.go:430-443 | without nil groups, exactly one Comment per group, in order |
| Comments.GroupCommentsSkipNil | parse.go:434-438 | nil groups contribute nothing |
| Comments.GroupCommentsSnoc | parse.go:434-441 | one more group adds its Comment at the end, a nil group nothing |
| Comments.GroupCommentsConcat | parse.go:434-441 | collecting two runs of groups gives the Comments of each run, in turn |
| Comments.GroupCommentsSkipNilBetween | parse.go:436-438 | a nil group anywhere among the others contributes nothing |
| Comments.ExtractComments | parse.go:430-443 | the loop returns the Comment of every non-nil group, in order |
| Values.UnquotedSteps | parse.go:479-488 | trimStrings is four independent steps: strip a leading then a trailing escaped quote, then a leading then a trailing quote |
| Values.UnquotedInfix | parse.go:479-488 | the result is always one contiguous piece of the input, so never longer |
| Values.UnquotedPlain | parse.go:479-488 | a token with no leading or trailing quote, escaped or not, is returned unchanged |
| Values.EscapedQuoteStepIdle | parse.go:483-484 | the escaped-quote step leaves a token that starts with a plain quote alone, unless it ends with an escaped quote |
| Values.QuoteStepPair | parse.go:483-484 | the plain-quote step removes one quote from each end |
| Values.UnquotedQuoted | parse.go:479-488 | a quoted token loses its quotes, unless its content ends with a backslash |
| Values.UnquotedEscaped | parse.go:479-488 | a token in escaped quotes loses them, unless its content starts or ends with a quote |
| Values.UnquotedOneSided | parse.go:479-488 | a quote on one side only is removed too: the strip is not matched in pairs |
| Values.PlainEnds | parse.go:483-485 | a token whose ends are neither a quote nor, at the end, a backslash offers no quote prefix or suffix and no trailing backslash to strip |
| Values.TrimStringsHello | parse_test.go:1149-1156 | `"hello"` and `\"hello\"` both become `hello` |
| Values.TrimStrings | parse.go:479-488 | the loop over the two patterns computes the four-step strip |
| Values.KeyMap | parse.go:392-404 | one entry, keyed by the first raw token as it is (not unquoted), holding the remaining tokens, each unquoted as the loop of parse.go:397-399 does, in order (empty for a single key) |
| Values.ParseKeys | parse.go:392-404 | the loop builds that key map |
| Values.LiteralTexts | parse.go:414-420 | at most one text per list element |
| Values.LiteralTextsOfLiterals | parse.go:414-420 | a list of literals keeps every element, unquoted, in order |
| Values.LiteralTextsSkipOthers | parse.go:415-420 | elements that are not literals add nothing |
| Values.LiteralTextsSnoc | parse.go:415-419 | one more element adds its unquoted text at the end if it is a literal, and nothing otherwise |
| Values.LiteralTextsConcat | parse.go:415-419 | the texts of two runs of elements are those of each run, in turn |
| Values.LiteralTextsSkipOtherBetween | parse.go:416-419 | an element that is not a literal adds nothing, wherever it stands |
| Values.RenderedEmptyList | parse.go:421-422 | an empty list renders as `[]` |
| Values.RenderedPair | parse.go:413-422 | a list of two literals renders as both texts unquoted, separated by `, `, between brackets |
| Values.AttrMapDomain | parse.go:406-428 | a name is mapped exactly when some literal or list attribute has it as its unquoted first key; other kinds add no entry |
| Values.AttrMapLastWins | parse.go:409-423 | a mapped name holds the rendering of the last attribute with that name: later duplicates overwrite earlier ones |
| Values.ParseValues | parse.go:406-428 | the loop over attributes and list elements builds that map |
| Values.ItemKeyword | parse.go:371-384 | a Value has a keyword exactly when its item has an object body with that first raw key; other items get the empty Value |
| Values.ExtractValues | parse.go:366-388 | exactly one Value per top-level item, in order |
| Values.Select | parse.go:353-363 | at most as many Values as the input, each having the keyword |
| Values.SelectMembers | parse.go:353-363 | a Value is selected exactly when it is in the input and has the keyword |
| Values.SelectConcat | parse.go:353-363 | selection preserves order: selecting from two runs selects from each, in turn |
| Values.ExtractElement | parse.go:353-363 | the loop returns that selection |
| Classify.FirstWithout | parse.go:327-329 | the index of the first Value without the attribute: every earlier one has it |
| Classify.VariablesOfMeaning | parse.go:319-350 | fails with TypeRequired exactly when some variable has no type, returning the Variables before it; each Variable has the first part as name, the type, and the description and default ("" when absent) |
| Classify.VariablesRequiredWithoutDefault | parse.go:342-344 | every Variable is Required exactly when its default is empty |
| Classify.ExtractVariables | parse.go:319-350 | the loop returns those Variables and that error |
| Classify.OutputsOfMeaning | parse.go:295-315 | one Output per output, in order, named by its first part, described by its description attribute or "" |
| Classify.OutputIgnoresComment | parse.go:303-309 | an Output's description never comes from its comment |
| Classify.ExtractOutputs | parse.go:295-315 | the loop returns those Outputs |
| Classify.ResourcesOfMeaning | parse.go:272-291 | one Resource per resource, in order: parts 0 and 1 as type and name, the comment text as description |
| Classify.ResourceIgnoresAttributes | parse.go:281-285 | a Resource does not depend on its attributes |
| Classify.ExtractResources | parse.go:272-291 | the loop returns those Resources |
| Classify.ModulesOfMeaning | parse.go:246-268 | fails with SourceRequired exactly when some module has no source, returning the Modules before it, whose message uses the variable wording |
| Classify.ExtractModules | parse.go:246-268 | the loop returns those Modules and that error |
| Assemble.DescriptionIsFirstMatch | parse.go:227-242 | the description is the trimmed text of the first comment on line 1 whose trimmed text starts with the module name |
| Assemble.DescriptionAbsent | parse.go:227-242 | without such a comment the description is "" |
| Assemble.DescriptionFirstOfTwo | parse_test.go:325-340 | of two matching comments, the first one wins |
| Assemble.DescriptionSkipsLaterLines | parse_test.go:341-356 | a comment that is not on line 1 is passed over |
| Assemble.ExtractDescription | parse.go:227-242 | the loop with continue and break returns that description |
| Assemble.OutcomeMeaning | parse.go:186-213 | a file fails only for a missing type or source; every Variable it yields is Required exactly without a default |
| Assemble.CollectedConcat | parse.go:185-213 | collecting two runs of files yields the records of each run, concatenated in file order |
| Assemble.CollectedSingle | parse.go:186-213 | the records of a single file are that file's |
| Assemble.CollectedRequired | parse.go:191-192 | every collected Variable is Required exactly without a default |
| FailFast.FirstFailing | parse.go:186-213 | the step at which a run of steps that is not clean stops: it fails, and every step before it is clean |
| FailFast.FirstFailingAt | parse.go:186-213 | a failing step reached after only clean steps is where the run stops |
| Assemble.Unwrapped | parse.go:170-177 | the parse tree of every text, in order, when all parsed |
| Assemble.ParseOutcome | parse.go:161-223 | Parse succeeds exactly when the name is set, every text parses and no file lacks a type or source; a syntax error gives no module; any other error gives the module of parse.go:162-168 with only its title set (`TfDocs.TitleOnly`) |
| Assemble.ParseCollects | parse.go:179-223 | each collection of a successful Parse is the files' own, concatenated in file order, with the description from all comments |
| Assemble.CollectedExtend | parse.go:186-212 | one more clean file adds its records after those of the files before it |
| Assemble.ParseTrees | parse.go:170-177 | the syntax pass fails exactly when some text does not parse, and otherwise yields every tree, in order |
| Assemble.CollectFiles | parse.go:185-213 | the pass over the files yields the records of all of them exactly when none fails, else the error of the first that fails |
| Assemble.ExtractFile | parse.go:186-213 | one pass over a file yields its records, or the error at which Parse stops |
| Assemble.Parse | parse.go:161-223 | the method returns what those specifications say |
| Layout.ModuleNameMeaning | parse.go:97-98 | the module name is the directory's last segment: slash-free, at the end of the directory, and the whole directory when it holds no slash |
| Layout.ModulePathSegments | parse.go:103-105 | the Path splits into exactly the segments between the root's and the last one, and is empty when there are none |
| Layout.ModuleLinkCases | parse.go:106-109 | the Link is the title alone without a Path; otherwise the Path, less a leading underscore, with dashes for slashes, then "_" and the title |
| Layout.LinkOfEmptyPath | parse.go:106-109 | a module without a Path is linked by its title alone |
| Layout.LinkOfPath | parse.go:106-109 | a Path that does not start with "_" is kept whole, with dashes for slashes, before "_" and the title |
| Layout.LinkDropsLeadingUnderscore | parse.go:106-109 | a Path that starts with "_" loses that underscore in the Link |
| Layout.NameOfChild | parse.go:97-98 | the module name of parent/leaf is leaf |
| Layout.PathOfChild | parse.go:103-105 | the root itself, and a directory right below it, get no Path |
| Layout.PathOfNested | parse.go:103-105 | root/mid/leaf gets the Path mid, whatever slashes mid holds |
| Layout.Depth1Placement | parse_test.go:17-21 | the root ./testdata/modules/depth1 is titled and linked "depth1" |
| Layout.Depth2Placement | parse_test.go:56-60 | ./testdata/modules/depth2/module1 below that root is titled and linked "module1" |
| Layout.TfFiles | parse.go:118-132 | a name is kept exactly when it ends in ".tf" |
| Layout.ListModuleFiles | parse.go:125-129 | the loop keeps the ".tf" names, in order |
| Layout.FindOutcome | parse.go:66-114 | one module per directory, the one Parse built for it, titled by its last segment and placed, or the modules before the first failing directory and that directory's error |
| Layout.FindAndParse | parse.go:66-114 | the method returns what that specification says, with an error for an empty root or no module directories |
| Layout.FindSpecStops | parse.go:99-102 | a directory that fails after clean ones ends FindAndParse with the modules before it and its error |
| Layout.FindSpecAll | parse.go:84-113 | when every directory parses, FindAndParse yields all of them placed and no error |
| Layout.PlacementsExtend | parse.go:110 | one more clean directory appends its placed module after the modules before it |
| Layout.DirStepParsed | parse.go:99-102 | the step of a directory that is reached is exactly what Parse returns for its texts and name |
| Layout.DirStepOfParse | parse.go:99-102 | Parse's error is the directory's failure; without one, its module is the directory's, with no Path yet |
| Layout.ParseDir | parse.go:97-110 | one pass over a module directory yields its placed module or its error |
| Layout.Place | parse.go:103-109 | the Path and Link assignments give the module its Path and Link |

## Left out

- File-system access is not modelled: traverseDirectory, ReadDir and ReadFile (parse.go:76-96, 121,
  135-158). FindAndParse takes the module directories it would find, each with the parse outcomes of
  its `.tf` files. ListModuleFiles is modelled only as the `.tf` filter over given names, so its
  ReadDir error is not modelled.
- `hcl.Parse` (parse.go:173) is a foreign library. Each text is given as `Option<File>`, where `None`
  is a syntax error. The parser's message is not modelled, so `TfDocs.Message` excludes that kind.
- The tree is always an object list, so the type assertion of extractValues (parse.go:369) is not
  modelled.
- The debug print in extractComments (parse.go:437) is output only. Only the skipping of nil groups
  is modelled.
- Comment-group positions are plain line and column fields. The hcl position logic is not
  modelled.
- References (`*T`) are modelled as values. So are nil versus empty slices and maps: an absent key map
  behaves as an empty one for every lookup here. Parse returns the module as `Option<TFModule>`,
  where `None` is the nil of a syntax error. Field updates of the result are modelled as datatype
  updates.
- The "name is required" checks (parse.go:251, 277, 300, 324) can never fire, because extractElement
  has already selected on that keyword. They are assertions, not error results.
- Error messages are error kinds. `TfDocs.Message` gives the wording the pipeline formats.
- Strings are sequences of code points, not bytes. TrimSpace uses the code-point list of
  `unicode.IsSpace`.
- The test cases that depend on the ./testdata fixtures are not modelled as such, except for the
  names, Paths and Links of the two TestFindAndParse directories (`Layout.Depth1Placement`,
  `Layout.Depth2Placement`). TestListModuleFiles and TestTraverseDirectories are not modelled.
- Comments.TidyComment: the multi-line block-comment cases of parse_test.go:1052-1071 are covered
  only by the general `Comments.TidyBlockExact`, not as concrete strings.
