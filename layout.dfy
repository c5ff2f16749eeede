/**
 * FindAndParse and ListModuleFiles (parse.go:66-132): each module directory found under the
 * root is parsed into a TFModule whose title is the directory's last path segment, whose Path
 * is the part of the directory between the root and that segment, and whose Link is an anchor
 * built from the two.
 */
module Layout {
  import opened Wrappers
  import opened GoStrings
  import opened HclAst
  import opened TfDocs
  import opened FailFast
  import opened Assemble

  // ---------------------------------------------------------------- names, paths and links

  /** The module name of a directory: its last path segment. */
  function ModuleName(dir: string): string {
    var segments := Split(dir, '/');
    segments[|segments| - 1]
  }

  /** The Path of a module: the segments between the root's and the last, only when there are any. */
  function ModulePath(root: string, dir: string): string {
    var segments, depth := Split(dir, '/'), |Split(root, '/')|;
    if |segments| > depth + 1 then Join(segments[depth..|segments| - 1], "/") else ""
  }

  /** The Link of a module: its Path with dashes for slashes, an underscore, its title; a leading underscore is dropped. */
  function ModuleLink(path: string, title: string): string {
    var link := ReplaceAll(path, '/', '-') + "_" + title;
    if HasPrefix(link, "_") then RemoveFirst(link, '_') else link
  }

  /** The module name is the directory's last path segment: slash-free and at the end of the directory. */
  lemma ModuleNameMeaning(dir: string)
    ensures '/' !in ModuleName(dir)
    ensures HasSuffix(dir, ModuleName(dir))
    ensures '/' !in dir ==> ModuleName(dir) == dir
  {
    var segments := Split(dir, '/');
    var last := segments[|segments| - 1];
    assert last == ModuleName(dir);
    assert '/' !in last by {
      SplitPieces(dir, '/');
    }
    assert HasSuffix(dir, last) by {
      JoinSplit(dir, '/');
      JoinEndsWithLast(segments, ['/']);
    }
    if '/' !in dir {
      SplitNoSeparator(dir, '/');
    }
  }

  /** The Path holds exactly the segments between the root's and the last one, or is empty when there are none. */
  lemma ModulePathSegments(root: string, dir: string)
    ensures var segments, depth := Split(dir, '/'), |Split(root, '/')|;
      && (|segments| <= depth + 1 ==> ModulePath(root, dir) == "")
      && (|segments| > depth + 1 ==> Split(ModulePath(root, dir), '/') == segments[depth..|segments| - 1])
  {
    var segments, depth := Split(dir, '/'), |Split(root, '/')|;
    if |segments| > depth + 1 {
      var mid := segments[depth..|segments| - 1];
      assert ModulePath(root, dir) == Join(mid, ['/']);
      assert forall k :: 0 <= k < |mid| ==> '/' !in mid[k] by {
        SplitPieces(dir, '/');
        forall k | 0 <= k < |mid| ensures '/' !in mid[k] {
          assert mid[k] == segments[depth + k];
        }
      }
      SplitJoin(mid, '/');
    }
  }

  /** The Link in its three cases: the title alone without a Path; otherwise the Path, less a leading underscore, with dashes for slashes, then "_" and the title. */
  lemma ModuleLinkCases(path: string, title: string)
    ensures ModuleLink(path, title) ==
      if path == "" then title
      else if path[0] == '_' then ReplaceAll(path[1..], '/', '-') + "_" + title
      else ReplaceAll(path, '/', '-') + "_" + title
  {
    if path == "" {
      LinkOfEmptyPath(title);
    } else if path[0] == '_' {
      assert path == "_" + path[1..];
      LinkDropsLeadingUnderscore(path[1..], title);
    } else {
      var link := ReplaceAll(path, '/', '-') + "_" + title;
      assert link[0] != '_';
    }
  }

  /** A module without a Path is linked by its title alone. */
  lemma LinkOfEmptyPath(title: string)
    ensures ModuleLink("", title) == title
  {
    assert ReplaceAll("", '/', '-') + "_" + title == "_" + title;
  }

  /** A Path that does not start with '_' is kept whole, with dashes for slashes, before the title. */
  lemma LinkOfPath(path: string, title: string)
    requires path != "" && path[0] != '_'
    ensures |ModuleLink(path, title)| == |path| + 1 + |title|
    ensures forall k :: 0 <= k < |path| ==> ModuleLink(path, title)[k] == if path[k] == '/' then '-' else path[k]
    ensures ModuleLink(path, title)[|path|..] == "_" + title
  {
    var replaced := ReplaceAll(path, '/', '-');
    var link := replaced + "_" + title;
    assert ModuleLink(path, title) == link by {
      assert link[0] == replaced[0] != '_';
    }
    assert link[|path|..] == "_" + title;
  }

  /** A Path that starts with '_' loses that underscore in the Link, just as an empty Path does. */
  lemma LinkDropsLeadingUnderscore(rest: string, title: string)
    ensures ModuleLink("_" + rest, title) == ReplaceAll(rest, '/', '-') + "_" + title
  {
    var link := ReplaceAll("_" + rest, '/', '-') + "_" + title;
    assert link[1..] == ReplaceAll(rest, '/', '-') + "_" + title;
  }

  /** The last segment of parent/leaf is leaf. */
  lemma NameOfChild(parent: string, leaf: string)
    requires '/' !in leaf
    ensures Split(parent + "/" + leaf, '/') == Split(parent, '/') + [leaf]
    ensures ModuleName(parent + "/" + leaf) == leaf
  {
    SplitConcat(parent, leaf, '/');
    SplitNoSeparator(leaf, '/');
  }

  /** The root itself, and a directory right below it, have no Path. */
  lemma PathOfChild(root: string, leaf: string)
    requires '/' !in leaf
    ensures ModulePath(root, root) == ""
    ensures ModulePath(root, root + "/" + leaf) == "" && ModuleName(root + "/" + leaf) == leaf
  {
    NameOfChild(root, leaf);
  }

  /** A directory root/mid/leaf has the Path mid, whatever slashes mid holds. */
  lemma PathOfNested(root: string, mid: string, leaf: string)
    requires '/' !in leaf
    ensures ModulePath(root, root + "/" + mid + "/" + leaf) == mid
    ensures ModuleName(root + "/" + mid + "/" + leaf) == leaf
  {
    var dir := root + "/" + mid + "/" + leaf;
    assert dir == (root + "/" + mid) + "/" + leaf;
    NameOfChild(root + "/" + mid, leaf);
    SplitConcat(root, mid, '/');
    var r, m := Split(root, '/'), Split(mid, '/');
    var segments := Split(dir, '/');
    assert segments == r + m + [leaf];
    assert segments[|r|..|segments| - 1] == m;
    JoinSplit(mid, '/');
  }

  /** TestFindAndParse, first case: the root ./testdata/modules/depth1 is itself the module. */
  lemma Depth1Placement()
    ensures ModuleName("./testdata/modules/depth1") == "depth1"
    ensures ModulePath("./testdata/modules/depth1", "./testdata/modules/depth1") == ""
    ensures ModuleLink(ModulePath("./testdata/modules/depth1", "./testdata/modules/depth1"), "depth1") == "depth1"
  {
    assert "./testdata/modules/depth1" == "./testdata/modules" + "/" + "depth1";
    NameOfChild("./testdata/modules", "depth1");
    LinkOfEmptyPath("depth1");
  }

  /** TestFindAndParse, second case: a module one level below the root ./testdata/modules/depth2. */
  lemma Depth2Placement()
    ensures ModuleName("./testdata/modules/depth2/module1") == "module1"
    ensures ModulePath("./testdata/modules/depth2", "./testdata/modules/depth2/module1") == ""
    ensures ModuleLink(ModulePath("./testdata/modules/depth2", "./testdata/modules/depth2/module1"), "module1") == "module1"
  {
    assert "./testdata/modules/depth2/module1" == "./testdata/modules/depth2" + "/" + "module1";
    PathOfChild("./testdata/modules/depth2", "module1");
    LinkOfEmptyPath("module1");
  }

  // ---------------------------------------------------------------- module files

  /** The names that end in ".tf", in order. */
  function TfFiles(names: seq<string>): (r: seq<string>)
    ensures |r| <= |names|
    ensures forall x :: x in r <==> x in names && HasSuffix(x, ".tf")
  {
    if |names| == 0 then []
    else
      var rest := TfFiles(names[..|names| - 1]);
      var last := names[|names| - 1];
      assert names == names[..|names| - 1] + [last];
      if HasSuffix(last, ".tf") then rest + [last] else rest
  }

  /** The filter of ListModuleFiles (parse.go:118-132) over the names of a directory's entries. */
  method ListModuleFiles(names: seq<string>) returns (files: seq<string>)
    ensures files == TfFiles(names)
  {
    files := [];
    for i := 0 to |names|
      invariant files == TfFiles(names[..i])
    {
      assert names[..i + 1][..i] == names[..i];
      if HasSuffix(names[i], ".tf") {
        files := files + [names[i]];
      }
    }
    assert names[..|names|] == names;
  }

  // ---------------------------------------------------------------- FindAndParse

  /** A module directory as found under the root: its path and the outcome of parsing each of its .tf files. */
  datatype ModuleDir = ModuleDir(path: string, trees: seq<Option<File>>)

  /** What FindAndParse makes of one directory: Parse would panic, fails, or yields a module. */
  function DirStep(d: ModuleDir): Step<TFModule> {
    var name := ModuleName(d.path);
    if !ParseReady(d.trees, name) then Unsafe
    else
      var p := ParseSpec(d.trees, name);
      ParseOutcome(d.trees, name);
      if p.err.Some? then Failed(p.err.value) else Done(p.tfModule.value)
  }

  function DirSteps(found: seq<ModuleDir>): (steps: seq<Step<TFModule>>)
    ensures |steps| == |found| && forall k :: 0 <= k < |found| ==> steps[k] == DirStep(found[k])
  {
    seq(|found|, k requires 0 <= k < |found| => DirStep(found[k]))
  }

  /** A parsed module with its Path and Link set from its directory. */
  function Placed(m: TFModule, root: string, dir: string): TFModule {
    var path := ModulePath(root, dir);
    m.(path := path, link := ModuleLink(path, m.title))
  }

  /** The modules of clean directories, each placed. */
  function Placements(steps: seq<Step<TFModule>>, found: seq<ModuleDir>, root: string): (ms: seq<TFModule>)
    requires |steps| == |found| && Clean(steps)
    ensures |ms| == |found|
  {
    var vs := DoneValues(steps);
    seq(|found|, k requires 0 <= k < |found| => Placed(vs[k], root, found[k].path))
  }

  /** FindAndParse is safe when every directory it reaches can be parsed. */
  predicate FindReady(directory: string, found: seq<ModuleDir>) {
    directory == "" || |found| == 0 || SafeFrom(DirSteps(found))
  }

  /** What FindAndParse returns: the modules before the first error, and that error. */
  datatype Found = Found(modules: seq<TFModule>, err: Option<ParseError>)

  function FindSpec(directory: string, found: seq<ModuleDir>): Found
    requires FindReady(directory, found)
  {
    if directory == "" then Found([], Some(EmptyDirectory))
    else if |found| == 0 then Found([], Some(NoModulesFound(directory)))
    else
      var steps := DirSteps(found);
      if Clean(steps) then Found(Placements(steps, found, directory), None)
      else
        var k := FirstFailing(steps);
        Found(Placements(steps[..k], found[..k], directory), Some(steps[k].err))
  }

  /**
   * FindAndParse yields one module per directory, titled by the directory's last segment, or
   * stops at the first directory that fails with that directory's error and the modules before it.
   */
  lemma FindOutcome(directory: string, found: seq<ModuleDir>)
    requires FindReady(directory, found) && directory != "" && |found| > 0
    ensures var r := FindSpec(directory, found);
      && |r.modules| <= |found|
      && (r.err.None? ==> |r.modules| == |found|)
      && (r.err.Some? ==> |r.modules| < |found| && DirStep(found[|r.modules|]) == Failed(r.err.value))
      && forall k :: 0 <= k < |r.modules| ==>
           && DirStep(found[k]).Done?
           && r.modules[k] == Placed(DirStep(found[k]).value, directory, found[k].path)
           && r.modules[k].title == ModuleName(found[k].path)
           && r.modules[k].path == ModulePath(directory, found[k].path)
           && r.modules[k].link == ModuleLink(r.modules[k].path, r.modules[k].title)
  {
    var steps := DirSteps(found);
    var n := if Clean(steps) then |found| else FirstFailing(steps);
    var pre := steps[..n];
    assert Clean(pre) by {
      if Clean(steps) {
        CleanPrefix(steps, n);
      }
    }
    var vs := DoneValues(pre);
    forall k | 0 <= k < n
      ensures DirStep(found[k]).Done? && vs[k].title == ModuleName(found[k].path)
    {
      assert pre[k] == steps[k] == DirStep(found[k]);
      var name := ModuleName(found[k].path);
      ParseOutcome(found[k].trees, name);
    }
    if Clean(steps) {
      assert pre == steps;
      assert found[..n] == found;
    }
  }

  /** FindAndParse (parse.go:66-114), with the module directories and their parsed files given. */
  method FindAndParse(directory: string, found: seq<ModuleDir>) returns (modules: seq<TFModule>, err: Option<ParseError>)
    requires FindReady(directory, found)
    ensures Found(modules, err) == FindSpec(directory, found)
  {
    modules := [];
    var directoryDepth := |Split(directory, '/')|;
    if directory == "" {
      return modules, Some(EmptyDirectory);
    }
    if |found| == 0 {
      return modules, Some(NoModulesFound(directory));
    }
    ghost var steps := DirSteps(found);
    for i := 0 to |found|
      invariant Clean(steps[..i])
      invariant modules == Placements(steps[..i], found[..i], directory)
    {
      DirStepParsed(found[i], ModuleName(found[i].path));
      var tfFile, perr := ParseDir(found[i], directory, directoryDepth);
      if perr.Some? {
        FindSpecStops(directory, found, i);
        return modules, perr;
      }
      modules := modules + [tfFile];
      CleanExtend(steps, i);
      PlacementsExtend(steps, found, directory, i);
    }
    FindSpecAll(directory, found);
    return modules, None;
  }

  lemma FindSpecStops(directory: string, found: seq<ModuleDir>, i: int)
    requires directory != "" && 0 <= i < |found|
    requires SafeFrom(DirSteps(found)) && Clean(DirSteps(found)[..i]) && DirStep(found[i]).Failed?
    ensures FindReady(directory, found)
    ensures FindSpec(directory, found) == Found(Placements(DirSteps(found)[..i], found[..i], directory), Some(DirStep(found[i]).err))
  {
    FirstFailingAt(DirSteps(found), i);
  }

  lemma FindSpecAll(directory: string, found: seq<ModuleDir>)
    requires directory != "" && |found| > 0
    requires Clean(DirSteps(found)[..|found|])
    ensures FindReady(directory, found)
    ensures FindSpec(directory, found) == Found(Placements(DirSteps(found)[..|found|], found[..|found|], directory), None)
  {
    var steps := DirSteps(found);
    assert steps[..|found|] == steps && found[..|found|] == found;
  }

  /** One pass of the loop of FindAndParse once the directory's files are parsed (parse.go:97-110). */
  method ParseDir(d: ModuleDir, directory: string, directoryDepth: int) returns (tfFile: TFModule, err: Option<ParseError>)
    requires directoryDepth == |Split(directory, '/')| && ParseReady(d.trees, ModuleName(d.path))
    ensures err.Some? ==> DirStep(d) == Failed(err.value)
    ensures err.None? ==> DirStep(d).Done? && tfFile == Placed(DirStep(d).value, directory, d.path)
  {
    var splitModule := Split(d.path, '/');
    var moduleName := splitModule[|splitModule| - 1];
    var parsed, perr := Parse(d.trees, moduleName);
    DirStepOfParse(d, moduleName, parsed, perr);
    if perr.Some? {
      return TitleOnly(moduleName), perr;
    }
    tfFile := Place(parsed.value, splitModule, directoryDepth, directory, d.path);
    return tfFile, None;
  }

  /** What Parse returned for a directory is its step, and a module it returns has no Path yet. */
  lemma DirStepOfParse(d: ModuleDir, moduleName: string, parsed: Option<TFModule>, perr: Option<ParseError>)
    requires moduleName == ModuleName(d.path) && ParseReady(d.trees, moduleName)
    requires Parsed(parsed, perr) == ParseSpec(d.trees, moduleName)
    ensures perr.Some? ==> DirStep(d) == Failed(perr.value)
    ensures perr.None? ==> parsed.Some? && DirStep(d) == Done(parsed.value) && parsed.value.path == ""
  {
    ParseOutcome(d.trees, moduleName);
    if perr.None? {
      ParseCollects(d.trees, moduleName);
    }
  }

  /** The Path and Link assignments of FindAndParse (parse.go:103-109) on a module Parse returned. */
  method Place(parsed: TFModule, splitModule: seq<string>, directoryDepth: int, ghost directory: string, ghost dir: string)
    returns (tfFile: TFModule)
    requires splitModule == Split(dir, '/') && directoryDepth == |Split(directory, '/')| && parsed.path == ""
    ensures tfFile == Placed(parsed, directory, dir)
  {
    tfFile := parsed;
    if |splitModule| > directoryDepth + 1 {
      tfFile := tfFile.(path := Join(splitModule[directoryDepth..|splitModule| - 1], "/"));
    }
    assert tfFile == parsed.(path := ModulePath(directory, dir));
    tfFile := tfFile.(link := ReplaceAll(tfFile.path, '/', '-') + "_" + tfFile.title);
    if HasPrefix(tfFile.link, "_") {
      tfFile := tfFile.(link := RemoveFirst(tfFile.link, '_'));
    }
  }

  lemma DirStepParsed(d: ModuleDir, moduleName: string)
    requires moduleName == ModuleName(d.path) && !DirStep(d).Unsafe?
    ensures ParseReady(d.trees, moduleName)
    ensures var p := ParseSpec(d.trees, moduleName);
      && (DirStep(d).Failed? <==> p.err.Some?)
      && (DirStep(d).Failed? ==> DirStep(d).err == p.err.value)
      && (DirStep(d).Done? ==> p.tfModule == Some(DirStep(d).value))
  {
  }

  lemma PlacementsExtend(steps: seq<Step<TFModule>>, found: seq<ModuleDir>, root: string, i: int)
    requires |steps| == |found| && 0 <= i < |found| && Clean(steps[..i + 1])
    ensures Clean(steps[..i])
    ensures Placements(steps[..i + 1], found[..i + 1], root)
      == Placements(steps[..i], found[..i], root) + [Placed(steps[i].value, root, found[i].path)]
  {
    assert steps[..i + 1][..i] == steps[..i];
    CleanPrefix(steps[..i + 1], i);
    var a, b := DoneValues(steps[..i + 1]), DoneValues(steps[..i]);
    assert steps[..i + 1][i] == steps[i];
    forall k | 0 <= k < i ensures a[k] == b[k] {
      assert steps[..i + 1][k] == steps[..i][k];
    }
  }
}
