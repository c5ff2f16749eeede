/** The documentation records that parse.go builds, and the errors it reports. */
module TfDocs {
  import opened Wrappers

  /** The block keywords the classifiers look for. */
  const VariableKeyword: string := "variable"
  const OutputKeyword: string := "output"
  const ModuleKeyword: string := "module"
  const ResourceKeyword: string := "resource"

  /** The attribute names the classifiers read. */
  const TypeAttr: string := "type"
  const DescriptionAttr: string := "description"
  const DefaultAttr: string := "default"
  const SourceAttr: string := "source"

  /** A normalised comment and the position of its group; line 1 marks a file-level comment. */
  datatype Comment = Comment(text: string, col: int, line: int)

  /** Go's zero Comment. */
  const ZeroComment := Comment("", 0, 0)

  datatype Variable = Variable(name: string, declaredType: string, description: string, default: string, required: bool)

  datatype Output = Output(description: string, name: string)

  datatype Resource = Resource(resourceType: string, name: string, description: string)

  /** A `module` block of the documented module: a reference to another module. */
  datatype Module = Module(name: string, description: string, source: string)

  /** The document of one module directory. */
  datatype TFModule = TFModule(
    path: string,
    title: string,
    link: string,
    variables: seq<Variable>,
    outputs: seq<Output>,
    resources: seq<Resource>,
    modules: seq<Module>,
    description: string)

  /** A TFModule with nothing but its title set. */
  function TitleOnly(title: string): TFModule {
    TFModule("", title, "", [], [], [], [], "")
  }

  /**
   * One top-level item as the classifiers see it: its keyword mapped to its identifier parts,
   * its attributes rendered as strings, and its leading comment.
   */
  datatype Value = Value(key: map<string, seq<string>>, val: map<string, string>, comment: Comment)

  /** The Value of an item whose body is not an object. */
  const EmptyValue := Value(map[], map[], ZeroComment)

  /** The errors parse.go reports. */
  datatype ParseError =
    | EmptyDirectory
    | NoModulesFound(directory: string)
    | EmptyModuleName
    | SyntaxError
    | TypeRequired
    | SourceRequired
    | NilComment

  /** The message of each error the pipeline itself formats; a syntax error carries the parser's own message. */
  function Message(e: ParseError): string
    requires !e.SyntaxError?
  {
    match e
    case EmptyDirectory => "directory cannot be empty"
    case NoModulesFound(directory) => "no modules found in path " + directory
    case EmptyModuleName => "error moduleName cannot be empty"
    case TypeRequired => "type is required for a variable"
    case SourceRequired => "source is required for a variable"
    case NilComment => "comment is nil"
  }
}
