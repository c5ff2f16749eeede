/**
 * extractDescription and Parse (parse.go:161-243): the records of several parsed files are
 * gathered, in file order, into one TFModule.
 */
module Assemble {
  import opened Wrappers
  import opened GoStrings
  import opened HclAst
  import opened TfDocs
  import opened Comments
  import opened Values
  import opened Classify
  import opened FailFast

  // ---------------------------------------------------------------- description

  /** A comment on line 1 whose trimmed text starts with the module name. */
  predicate Describes(c: Comment, moduleName: string) {
    c.line == 1 && HasPrefix(TrimSpace(c.text), moduleName)
  }

  /** The description extractDescription picks: the trimmed text of the first describing comment, else "". */
  function DescriptionOf(comments: seq<Comment>, moduleName: string): string {
    if |comments| == 0 then ""
    else if Describes(comments[0], moduleName) then TrimSpace(comments[0].text)
    else DescriptionOf(comments[1..], moduleName)
  }

  /** The description is the trimmed text of the first comment that describes the module. */
  lemma {:induction false} DescriptionIsFirstMatch(comments: seq<Comment>, moduleName: string, k: int)
    requires 0 <= k < |comments| && Describes(comments[k], moduleName)
    requires forall i :: 0 <= i < k ==> !Describes(comments[i], moduleName)
    ensures DescriptionOf(comments, moduleName) == TrimSpace(comments[k].text)
    ensures HasPrefix(DescriptionOf(comments, moduleName), moduleName)
  {
    if k > 0 {
      DescriptionIsFirstMatch(comments[1..], moduleName, k - 1);
    }
  }

  /** Without a describing comment the description is empty. */
  lemma {:induction false} DescriptionAbsent(comments: seq<Comment>, moduleName: string)
    requires forall i :: 0 <= i < |comments| ==> !Describes(comments[i], moduleName)
    ensures DescriptionOf(comments, moduleName) == ""
  {
    if |comments| > 0 {
      DescriptionAbsent(comments[1..], moduleName);
    }
  }

  /** The first case of parse_test.go:325-340: of two describing comments the first wins. */
  lemma DescriptionFirstOfTwo()
    ensures DescriptionOf([Comment("test module description", 0, 1), Comment("test another module description", 0, 1)], "test")
      == "test module description"
  {
    TrimSpaceExact("", "test module description", "");
    assert "" + "test module description" + "" == "test module description";
  }

  /** The second case: a comment that is not on line 1 is passed over. */
  lemma DescriptionSkipsLaterLines()
    ensures DescriptionOf([Comment("test module description", 0, 2), Comment("test another module description", 0, 1)], "test")
      == "test another module description"
  {
    TrimSpaceExact("", "test another module description", "");
    assert "" + "test another module description" + "" == "test another module description";
    var cs := [Comment("test module description", 0, 2), Comment("test another module description", 0, 1)];
    assert cs[1..] == [Comment("test another module description", 0, 1)];
  }

  /** extractDescription (parse.go:227-243). */
  method ExtractDescription(comments: seq<Comment>, moduleName: string) returns (description: string)
    ensures description == DescriptionOf(comments, moduleName)
  {
    description := "";
    for i := 0 to |comments|
      invariant DescriptionOf(comments[i..], moduleName) == DescriptionOf(comments, moduleName)
      invariant description == ""
    {
      assert comments[i..][1..] == comments[i + 1..];
      var comment := comments[i];
      if comment.line != 1 {
        continue;
      }
      var commentText := TrimSpace(comment.text);
      if HasPrefix(commentText, moduleName) {
        description := commentText;
        break;
      }
    }
  }

  // ---------------------------------------------------------------- one file

  /** extractValues may index the keys of every item of the file. */
  predicate ItemsKeyed(f: File) {
    forall k :: 0 <= k < |f.items| ==> ItemKeyed(f.items[k])
  }

  /** The Values of a file's items, one per item. */
  function FileValues(f: File): seq<Value>
    requires ItemsKeyed(f)
  {
    seq(|f.items|, k requires 0 <= k < |f.items| => ItemValue(f.items[k]))
  }

  /** Everything Parse collects. */
  datatype Records = Records(
    comments: seq<Comment>,
    variables: seq<Variable>,
    outputs: seq<Output>,
    resources: seq<Resource>,
    modules: seq<Module>)

  const NoRecords := Records([], [], [], [], [])

  /** Records of two runs of files, side by side. */
  function Append(a: Records, b: Records): Records {
    Records(a.comments + b.comments, a.variables + b.variables, a.outputs + b.outputs,
            a.resources + b.resources, a.modules + b.modules)
  }

  /**
   * What Parse makes of one file: it would index a missing identifier part (Unsafe), it stops at
   * a variable without a type or a module without a source (Failed), or it collects the file's
   * records (Done). The classifiers run in the order variables, outputs, modules, resources, so
   * a part is missing only if it belongs to a record Parse goes on to build.
   */
  type Outcome = Step<Records>

  function OutcomeOf(f: File): Outcome {
    if !ItemsKeyed(f) then Unsafe else ValuesOutcome(FileValues(f), GroupComments(f.comments))
  }

  /** The outcome of a file with these Values and comments. */
  function ValuesOutcome(values: seq<Value>, comments: seq<Comment>): Outcome {
      if !VariablesSafe(values) then Unsafe
      else if VariablesOf(values).err.Some? then Failed(VariablesOf(values).err.value)
      else if !OutputsSafe(values) || !ModulesSafe(values) then Unsafe
      else if ModulesOf(values).err.Some? then Failed(ModulesOf(values).err.value)
      else if !ResourcesSafe(values) then Unsafe
      else Done(Records(comments, VariablesOf(values).records, OutputsOf(values),
                        ResourcesOf(values), ModulesOf(values).records))
  }

  /** A file fails only for a missing type or source, and every Variable it yields is required exactly when it has no default. */
  lemma OutcomeMeaning(f: File)
    ensures OutcomeOf(f).Failed? ==> OutcomeOf(f).err == TypeRequired || OutcomeOf(f).err == SourceRequired
    ensures OutcomeOf(f).Done? ==> forall x :: x in OutcomeOf(f).value.variables ==> x.required == (x.default == "")
  {
    if OutcomeOf(f).Done? {
      VariablesRequiredWithoutDefault(FileValues(f));
    }
  }

  // ---------------------------------------------------------------- many files

  /** The outcome of each file. */
  function Outcomes(files: seq<File>): (os: seq<Outcome>)
    ensures |os| == |files| && forall k :: 0 <= k < |files| ==> os[k] == OutcomeOf(files[k])
  {
    seq(|files|, k requires 0 <= k < |files| => OutcomeOf(files[k]))
  }

  /** The records collected from clean files, in file order. */
  function Collected(os: seq<Outcome>): Records
    requires Clean(os)
  {
    if |os| == 0 then NoRecords
    else
      CleanPrefix(os, |os| - 1);
      Append(Collected(os[..|os| - 1]), os[|os| - 1].value)
  }

  /** The records of clean files laid end to end are those of each run, concatenated. */
  lemma {:induction false} CollectedConcat(a: seq<Outcome>, b: seq<Outcome>)
    requires Clean(a + b)
    ensures Clean(a) && Clean(b)
    ensures Collected(a + b) == Append(Collected(a), Collected(b))
  {
    assert (a + b)[..|a|] == a;
    CleanPrefix(a + b, |a|);
    forall k | 0 <= k < |b| ensures b[k].Done? {
      assert b[k] == (a + b)[|a| + k];
    }
    if |b| > 0 {
      var front := b[..|b| - 1];
      assert (a + b)[..|a + b| - 1] == a + front;
      CleanPrefix(b, |b| - 1);
      CollectedConcat(a, front);
    } else {
      assert a + b == a;
    }
  }

  /** One more clean file adds its records after those of the files before it. */
  lemma CollectedExtend(os: seq<Outcome>, i: int)
    requires 0 <= i < |os| && Clean(os[..i]) && os[i].Done?
    ensures Clean(os[..i + 1])
    ensures Collected(os[..i + 1]) == Append(Collected(os[..i]), os[i].value)
  {
    CleanExtend(os, i);
    var grown := os[..i + 1];
    assert grown[..i] == os[..i] && grown[i] == os[i];
  }

  /** The records of a single clean file are that file's. */
  lemma CollectedSingle(f: File)
    requires OutcomeOf(f).Done?
    ensures Outcomes([f]) == [OutcomeOf(f)] && Clean(Outcomes([f]))
    ensures Collected(Outcomes([f])) == OutcomeOf(f).value
  {
    var os := Outcomes([f]);
    assert os == [OutcomeOf(f)];
    assert os[..0] == [];
  }

  /** Every collected Variable is required exactly when it has no default. */
  lemma {:induction false} CollectedRequired(os: seq<Outcome>, files: seq<File>)
    requires os == Outcomes(files) && Clean(os)
    ensures forall x :: x in Collected(os).variables ==> x.required == (x.default == "")
  {
    if |os| > 0 {
      CleanPrefix(os, |os| - 1);
      assert os[..|os| - 1] == Outcomes(files[..|files| - 1]);
      CollectedRequired(os[..|os| - 1], files[..|files| - 1]);
      OutcomeMeaning(files[|files| - 1]);
    }
  }

  // ---------------------------------------------------------------- Parse

  /** The files of the parse trees, when every text parsed. */
  function Unwrapped(trees: seq<Option<File>>): (files: seq<File>)
    requires None !in trees
    ensures |files| == |trees| && forall k :: 0 <= k < |trees| ==> trees[k] == Some(files[k])
  {
    if |trees| == 0 then [] else [trees[0].value] + Unwrapped(trees[1..])
  }

  /** What Parse returns: the module, absent after a syntax error, and the error. */
  datatype Parsed = Parsed(tfModule: Option<TFModule>, err: Option<ParseError>)

  /** Parse indexes identifier parts only once the name is set and every text parsed. */
  predicate ParseReady(trees: seq<Option<File>>, moduleName: string) {
    moduleName == "" || None in trees || SafeFrom(Outcomes(Unwrapped(trees)))
  }

  /** The module built from clean files. */
  function Assembled(os: seq<Outcome>, moduleName: string): TFModule
    requires Clean(os)
  {
    var r := Collected(os);
    TFModule("", moduleName, "", r.variables, r.outputs, r.resources, r.modules, DescriptionOf(r.comments, moduleName))
  }

  /** What Parse returns, given the outcome of parsing each text. */
  function ParseSpec(trees: seq<Option<File>>, moduleName: string): Parsed
    requires ParseReady(trees, moduleName)
  {
    if moduleName == "" then Parsed(Some(TitleOnly("")), Some(EmptyModuleName))
    else if None in trees then Parsed(None, Some(SyntaxError))
    else
      var os := Outcomes(Unwrapped(trees));
      if Clean(os) then Parsed(Some(Assembled(os, moduleName)), None)
      else Parsed(Some(TitleOnly(moduleName)), Some(os[FirstFailing(os)].err))
  }

  /**
   * Parse succeeds exactly when the name is set, every text parsed and no file lacks a variable
   * type or a module source; a syntax error leaves no module, and any other error a module with
   * only its title.
   */
  lemma ParseOutcome(trees: seq<Option<File>>, moduleName: string)
    requires ParseReady(trees, moduleName)
    ensures var p := ParseSpec(trees, moduleName);
      && (p.err.None? <==> moduleName != "" && None !in trees && Clean(Outcomes(Unwrapped(trees))))
      && (p.tfModule.None? <==> p.err == Some(SyntaxError))
      && (p.tfModule.Some? ==> p.tfModule.value.title == moduleName)
      && (p.err.Some? && p.tfModule.Some? ==> p.tfModule == Some(TitleOnly(moduleName)))
      && (moduleName != "" && None !in trees && p.err.Some? ==> p.err == Some(TypeRequired) || p.err == Some(SourceRequired))
  {
    if moduleName != "" && None !in trees {
      var files := Unwrapped(trees);
      var os := Outcomes(files);
      if !Clean(os) {
        OutcomeMeaning(files[FirstFailing(os)]);
      }
    }
  }

  /** Of a successful Parse, each collection is the concatenation of the files' own, in file order. */
  lemma ParseCollects(trees: seq<Option<File>>, moduleName: string)
    requires ParseReady(trees, moduleName) && ParseSpec(trees, moduleName).err.None?
    ensures var m, os := ParseSpec(trees, moduleName).tfModule.value, Outcomes(Unwrapped(trees));
      && Clean(os)
      && m.path == "" && m.link == ""
      && m.variables == Collected(os).variables
      && m.outputs == Collected(os).outputs
      && m.resources == Collected(os).resources
      && m.modules == Collected(os).modules
      && m.description == DescriptionOf(Collected(os).comments, moduleName)
      && forall x :: x in m.variables ==> x.required == (x.default == "")
  {
    ParseOutcome(trees, moduleName);
    CollectedRequired(Outcomes(Unwrapped(trees)), Unwrapped(trees));
  }

  /** One pass of the loop of Parse over the files (parse.go:186-213). */
  method ExtractFile(f: File) returns (records: Records, err: Option<ParseError>)
    requires !OutcomeOf(f).Unsafe?
    ensures err.Some? ==> OutcomeOf(f) == Failed(err.value)
    ensures err.None? ==> OutcomeOf(f) == Done(records)
  {
    records := NoRecords;
    var comments := ExtractComments(f.comments);
    records := records.(comments := comments);
    var values := ExtractValues(f.items);
    assert values == FileValues(f);
    assert OutcomeOf(f) == ValuesOutcome(values, comments);

    var variables, verr := ExtractVariables(values);
    if verr.Some? {
      return records, verr;
    }
    records := records.(variables := variables);

    var outputs := ExtractOutputs(values);
    records := records.(outputs := outputs);

    var modules, merr := ExtractModules(values);
    if merr.Some? {
      return records, merr;
    }
    records := records.(modules := modules);

    var resources := ExtractResources(values);
    records := records.(resources := resources);
    return records, None;
  }

  /** The loop of Parse over the texts (parse.go:170-177): the parse trees, or the syntax error that stops it. */
  method ParseTrees(trees: seq<Option<File>>) returns (files: seq<File>, err: Option<ParseError>)
    ensures err.Some? <==> None in trees
    ensures err.Some? ==> err == Some(SyntaxError)
    ensures err.None? ==> None !in trees && files == Unwrapped(trees)
  {
    files := [];
    for i := 0 to |trees|
      invariant None !in trees[..i]
      invariant |files| == i && forall k :: 0 <= k < i ==> trees[k] == Some(files[k])
    {
      match trees[i]
      case None =>
        return files, Some(SyntaxError);
      case Some(f) =>
        files := files + [f];
    }
    assert trees[..|trees|] == trees;
    return files, None;
  }

  /** The loop of Parse over the files (parse.go:185-213): the records of every file, or the error of the first that fails. */
  method CollectFiles(files: seq<File>) returns (records: Records, err: Option<ParseError>)
    requires SafeFrom(Outcomes(files))
    ensures err.None? <==> Clean(Outcomes(files))
    ensures err.None? ==> records == Collected(Outcomes(files))
    ensures err.Some? ==> !Clean(Outcomes(files)) && err.value == Outcomes(files)[FirstFailing(Outcomes(files))].err
  {
    ghost var os := Outcomes(files);
    records := NoRecords;
    for i := 0 to |files|
      invariant Clean(os[..i])
      invariant records == Collected(os[..i])
    {
      var fileRecords, ferr := ExtractFile(files[i]);
      if ferr.Some? {
        FirstFailingAt(os, i);
        return records, ferr;
      }
      records := Append(records, fileRecords);
      CollectedExtend(os, i);
    }
    assert os[..|os|] == os;
    return records, None;
  }

  /** Parse (parse.go:161-223). */
  method Parse(trees: seq<Option<File>>, moduleName: string) returns (result: Option<TFModule>, err: Option<ParseError>)
    requires ParseReady(trees, moduleName)
    ensures Parsed(result, err) == ParseSpec(trees, moduleName)
  {
    var tfModule := TitleOnly("");
    if moduleName == "" {
      return Some(tfModule), Some(EmptyModuleName);
    }
    tfModule := tfModule.(title := moduleName);

    var files, serr := ParseTrees(trees);
    if serr.Some? {
      return None, serr;
    }

    var records, ferr := CollectFiles(files);
    if ferr.Some? {
      return Some(tfModule), ferr;
    }
    var description := ExtractDescription(records.comments, moduleName);
    tfModule := tfModule.(variables := records.variables, outputs := records.outputs, description := description,
                          modules := records.modules, resources := records.resources);
    return Some(tfModule), None;
  }
}
