/**
 * The element classifiers extractVariables, extractOutputs, extractResources and
 * extractModules (parse.go:246-350). Each selects the Values of its keyword and turns them
 * into records; the variable and module classifiers stop at the first Value that lacks a
 * required attribute and return the records built so far together with the error.
 *
 * Each classifier first checks that the selected Value has its keyword; extractElement has
 * already made sure of that, so those "name is required" errors can never be returned and
 * appear here as assertions.
 */
module Classify {
  import opened Wrappers
  import opened TfDocs
  import opened Values

  /** The identifier parts under a keyword; like a Go map lookup, nothing when the keyword is absent. */
  function Names(v: Value, keyword: string): seq<string> {
    if keyword in v.key then v.key[keyword] else []
  }

  /** An attribute's rendered string; like a Go map lookup, "" when it is absent. */
  function Attr(v: Value, name: string): string {
    if name in v.val then v.val[name] else ""
  }

  /** The records a classifier returns and the error it stopped at, if any. */
  datatype Batch<T> = Batch(records: seq<T>, err: Option<ParseError>)

  /** The index of the first Value without the attribute, or the number of Values if every one has it. */
  function FirstWithout(ms: seq<Value>, attr: string): (k: nat)
    ensures k <= |ms|
    ensures forall i :: 0 <= i < k ==> attr in ms[i].val
    ensures k < |ms| ==> attr !in ms[k].val
  {
    if |ms| == 0 then 0 else if attr !in ms[0].val then 0 else 1 + FirstWithout(ms[1..], attr)
  }

  // ---------------------------------------------------------------- variables

  /** extractVariables reads name[0] of every variable it converts, and it converts those before the first one without a type. */
  predicate VariablesSafe(values: seq<Value>) {
    var ms := Select(values, VariableKeyword);
    forall i :: 0 <= i < FirstWithout(ms, TypeAttr) ==> |Names(ms[i], VariableKeyword)| >= 1
  }

  /** The Variable built from a `variable` Value: Required exactly when there is no default. */
  function ToVariable(v: Value): (r: Variable)
    requires |Names(v, VariableKeyword)| >= 1
  {
    var default := Attr(v, DefaultAttr);
    Variable(Names(v, VariableKeyword)[0], Attr(v, TypeAttr), Attr(v, DescriptionAttr), default, default == "")
  }

  /** What extractVariables returns. */
  function VariablesOf(values: seq<Value>): Batch<Variable>
    requires VariablesSafe(values)
  {
    var ms := Select(values, VariableKeyword);
    var k := FirstWithout(ms, TypeAttr);
    Batch(seq(k, i requires 0 <= i < k => ToVariable(ms[i])), if k < |ms| then Some(TypeRequired) else None)
  }

  /**
   * extractVariables fails exactly when some variable has no type; up to the first such one it
   * returns one Variable per variable, in order, with the fields read from its attributes.
   */
  lemma VariablesOfMeaning(values: seq<Value>)
    requires VariablesSafe(values)
    ensures var ms, b := Select(values, VariableKeyword), VariablesOf(values);
      && (b.err.None? <==> forall i :: 0 <= i < |ms| ==> TypeAttr in ms[i].val)
      && (b.err.None? ==> |b.records| == |ms|)
      && (b.err.Some? ==> b.err == Some(TypeRequired) && |b.records| < |ms| && TypeAttr !in ms[|b.records|].val)
      && forall i :: 0 <= i < |b.records| ==>
           && b.records[i].name == ms[i].key[VariableKeyword][0]
           && b.records[i].declaredType == ms[i].val[TypeAttr]
           && b.records[i].description == Attr(ms[i], DescriptionAttr)
           && b.records[i].default == Attr(ms[i], DefaultAttr)
  {
  }

  /** Every Variable is required exactly when its default is empty. */
  lemma VariablesRequiredWithoutDefault(values: seq<Value>)
    requires VariablesSafe(values)
    ensures forall x :: x in VariablesOf(values).records ==> x.required == (x.default == "")
  {
  }

  /** extractVariables (parse.go:319-350). */
  method ExtractVariables(values: seq<Value>) returns (variables: seq<Variable>, err: Option<ParseError>)
    requires VariablesSafe(values)
    ensures Batch(variables, err) == VariablesOf(values)
  {
    variables := [];
    var vars := ExtractElement(values, VariableKeyword);
    ghost var k := FirstWithout(vars, TypeAttr);
    for i := 0 to |vars|
      invariant i <= k
      invariant |variables| == i && forall j :: 0 <= j < i ==> variables[j] == ToVariable(vars[j])
    {
      var v := vars[i];
      assert VariableKeyword in v.key;
      if TypeAttr !in v.val {
        return variables, Some(TypeRequired);
      }
      var name := v.key[VariableKeyword];
      var variable := Variable("", "", "", "", false);
      variable := variable.(name := name[0], declaredType := v.val[TypeAttr]);
      if DescriptionAttr in v.val {
        variable := variable.(description := v.val[DescriptionAttr]);
      }
      if DefaultAttr in v.val {
        variable := variable.(default := v.val[DefaultAttr]);
      }
      if variable.default == "" {
        variable := variable.(required := true);
      }
      variables := variables + [variable];
    }
    return variables, None;
  }

  // ---------------------------------------------------------------- outputs

  /** extractOutputs reads name[0] of every output. */
  predicate OutputsSafe(values: seq<Value>) {
    var ms := Select(values, OutputKeyword);
    forall i :: 0 <= i < |ms| ==> |Names(ms[i], OutputKeyword)| >= 1
  }

  /** The Output built from an `output` Value. */
  function ToOutput(v: Value): Output
    requires |Names(v, OutputKeyword)| >= 1
  {
    Output(Attr(v, DescriptionAttr), Names(v, OutputKeyword)[0])
  }

  /** What extractOutputs returns: one Output per output, in order. */
  function OutputsOf(values: seq<Value>): seq<Output>
    requires OutputsSafe(values)
  {
    var ms := Select(values, OutputKeyword);
    seq(|ms|, i requires 0 <= i < |ms| => ToOutput(ms[i]))
  }

  /** extractOutputs returns one Output per output, in order: its first identifier part and its `description` attribute, if any. */
  lemma OutputsOfMeaning(values: seq<Value>)
    requires OutputsSafe(values)
    ensures var ms, r := Select(values, OutputKeyword), OutputsOf(values);
      && |r| == |ms|
      && forall i :: 0 <= i < |r| ==>
           && r[i].name == ms[i].key[OutputKeyword][0]
           && r[i].description == (if DescriptionAttr in ms[i].val then ms[i].val[DescriptionAttr] else "")
  {
  }

  /** An Output's description comes from its `description` attribute and never from its comment. */
  lemma OutputIgnoresComment(v: Value, c: Comment)
    requires |Names(v, OutputKeyword)| >= 1
    ensures ToOutput(v.(comment := c)) == ToOutput(v)
    ensures ToOutput(v).description == (if DescriptionAttr in v.val then v.val[DescriptionAttr] else "")
  {
  }

  /** extractOutputs (parse.go:295-315). */
  method ExtractOutputs(values: seq<Value>) returns (outputs: seq<Output>)
    requires OutputsSafe(values)
    ensures outputs == OutputsOf(values)
  {
    outputs := [];
    var outs := ExtractElement(values, OutputKeyword);
    for i := 0 to |outs|
      invariant |outputs| == i && forall j :: 0 <= j < i ==> outputs[j] == ToOutput(outs[j])
    {
      var o := outs[i];
      assert OutputKeyword in o.key;
      var output := Output("", "");
      var name := o.key[OutputKeyword];
      output := output.(name := name[0]);
      if DescriptionAttr in o.val {
        output := output.(description := o.val[DescriptionAttr]);
      }
      outputs := outputs + [output];
    }
  }

  // ---------------------------------------------------------------- resources

  /** extractResources reads keys[0] and keys[1] of every resource. */
  predicate ResourcesSafe(values: seq<Value>) {
    var ms := Select(values, ResourceKeyword);
    forall i :: 0 <= i < |ms| ==> |Names(ms[i], ResourceKeyword)| >= 2
  }

  /** The Resource built from a `resource` Value: its two identifier parts and its comment. */
  function ToResource(v: Value): Resource
    requires |Names(v, ResourceKeyword)| >= 2
  {
    Resource(Names(v, ResourceKeyword)[0], Names(v, ResourceKeyword)[1], v.comment.text)
  }

  /** What extractResources returns: one Resource per resource, in order. */
  function ResourcesOf(values: seq<Value>): seq<Resource>
    requires ResourcesSafe(values)
  {
    var ms := Select(values, ResourceKeyword);
    seq(|ms|, i requires 0 <= i < |ms| => ToResource(ms[i]))
  }

  /** extractResources returns one Resource per resource, in order: its two identifier parts as type and name, and its comment's text. */
  lemma ResourcesOfMeaning(values: seq<Value>)
    requires ResourcesSafe(values)
    ensures var ms, r := Select(values, ResourceKeyword), ResourcesOf(values);
      && |r| == |ms|
      && forall i :: 0 <= i < |r| ==>
           r[i] == Resource(ms[i].key[ResourceKeyword][0], ms[i].key[ResourceKeyword][1], ms[i].comment.text)
  {
  }

  /** A Resource is the type and name of its block and the text of its comment; its attributes play no part. */
  lemma ResourceIgnoresAttributes(v: Value, attributes: map<string, string>)
    requires |Names(v, ResourceKeyword)| >= 2
    ensures ToResource(v.(val := attributes)) == ToResource(v)
  {
  }

  /** extractResources (parse.go:272-291). */
  method ExtractResources(values: seq<Value>) returns (resources: seq<Resource>)
    requires ResourcesSafe(values)
    ensures resources == ResourcesOf(values)
  {
    resources := [];
    var mods := ExtractElement(values, ResourceKeyword);
    for i := 0 to |mods|
      invariant |resources| == i && forall j :: 0 <= j < i ==> resources[j] == ToResource(mods[j])
    {
      var m := mods[i];
      assert ResourceKeyword in m.key;
      var keys := m.key[ResourceKeyword];
      var resource := Resource("", "", "");
      resource := resource.(name := keys[1]);
      resource := resource.(resourceType := keys[0]);
      resource := resource.(description := m.comment.text);
      resources := resources + [resource];
    }
  }

  // ---------------------------------------------------------------- modules

  /** extractModules reads name[0] of every module it converts: those before the first one without a source. */
  predicate ModulesSafe(values: seq<Value>) {
    var ms := Select(values, ModuleKeyword);
    forall i :: 0 <= i < FirstWithout(ms, SourceAttr) ==> |Names(ms[i], ModuleKeyword)| >= 1
  }

  /** The Module built from a `module` Value. */
  function ToModule(v: Value): Module
    requires |Names(v, ModuleKeyword)| >= 1
  {
    Module(Names(v, ModuleKeyword)[0], v.comment.text, Attr(v, SourceAttr))
  }

  /** What extractModules returns. */
  function ModulesOf(values: seq<Value>): Batch<Module>
    requires ModulesSafe(values)
  {
    var ms := Select(values, ModuleKeyword);
    var k := FirstWithout(ms, SourceAttr);
    Batch(seq(k, i requires 0 <= i < k => ToModule(ms[i])), if k < |ms| then Some(SourceRequired) else None)
  }

  /**
   * extractModules fails exactly when some module has no source, reporting it with the
   * variable wording; up to that module it returns one Module per module, in order.
   */
  lemma ModulesOfMeaning(values: seq<Value>)
    requires ModulesSafe(values)
    ensures var ms, b := Select(values, ModuleKeyword), ModulesOf(values);
      && (b.err.None? <==> forall i :: 0 <= i < |ms| ==> SourceAttr in ms[i].val)
      && (b.err.None? ==> |b.records| == |ms|)
      && (b.err.Some? ==> b.err == Some(SourceRequired) && |b.records| < |ms| && SourceAttr !in ms[|b.records|].val)
      && forall i :: 0 <= i < |b.records| ==>
           b.records[i] == Module(ms[i].key[ModuleKeyword][0], ms[i].comment.text, ms[i].val[SourceAttr])
    ensures Message(SourceRequired) == "source is required for a variable"
  {
  }

  /** extractModules (parse.go:246-268). */
  method ExtractModules(values: seq<Value>) returns (modules: seq<Module>, err: Option<ParseError>)
    requires ModulesSafe(values)
    ensures Batch(modules, err) == ModulesOf(values)
  {
    modules := [];
    var mods := ExtractElement(values, ModuleKeyword);
    ghost var k := FirstWithout(mods, SourceAttr);
    for i := 0 to |mods|
      invariant i <= k
      invariant |modules| == i && forall j :: 0 <= j < i ==> modules[j] == ToModule(mods[j])
    {
      var m := mods[i];
      assert ModuleKeyword in m.key;
      if SourceAttr !in m.val {
        return modules, Some(SourceRequired);
      }
      var mdl := Module("", "", "");
      var name := m.key[ModuleKeyword];
      mdl := mdl.(name := name[0]);
      mdl := mdl.(description := m.comment.text);
      mdl := mdl.(source := m.val[SourceAttr]);
      modules := modules + [mdl];
    }
    return modules, None;
  }
}
