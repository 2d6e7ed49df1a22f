/** The second generation, `src/cli.ts`: the filter and map of
    `getModules`, the index text `createFileContents` and the decision of
    `createFile`. The directory of the configuration file and the names
    `fs.readdir` gives are parameters; an exception thrown in a callback is a
    `Failed` ending. */
module LegacyCli {
  import opened Outcomes
  import opened Strings
  import opened Regex
  import opened LegacyFilter
  import opened LegacyHash
  import opened FileActions
  import LegacyIndex

  /** The options of a configuration file. */
  datatype Options = Options(fileExtension: string, fileName: string, ignoreFiles: seq<string>)

  /** The same list as the first generation's: names starting with the index
      file's name and plain entries are matched unanchored at the end. */
  function IgnorePatterns(o: Options): seq<Pattern> {
    Patterns(NamePattern(o.fileName, o.fileExtension, false), o.fileExtension, o.ignoreFiles, false)
  }

  /** The module names of a directory: the kept file names, stripped of
      `.<ext>`, in `readdir` order, neither sorted nor sanitised. */
  function ModuleNames(user: UserMatcher, files: seq<string>, o: Options): (r: seq<string>)
    ensures |r| <= |files|
    decreases |files|
  {
    if files == [] then []
    else
      var last := files[|files| - 1];
      ModuleNames(user, files[..|files| - 1], o) +
      (if Kept(user, last, o.fileExtension, IgnorePatterns(o)) then [Basename(last, "." + o.fileExtension)] else [])
  }

  /** `getModules(rc, options, callback)`: what it hands to the callback. */
  method GetModules(user: UserMatcher, files: seq<string>, o: Options) returns (modules: seq<string>)
    ensures modules == ModuleNames(user, files, o)
  {
    modules := [];
    for i := 0 to |files|
      invariant modules == ModuleNames(user, files[..i], o)
    {
      assert files[..i + 1][..i] == files[..i];
      var pass := Passes(user, files[i], o.fileExtension, IgnorePatterns(o));
      if pass {
        modules := modules + [Basename(files[i], "." + o.fileExtension)];
      }
    }
    assert files[..|files|] == files;
  }

  function AsIndexOptions(o: Options): LegacyIndex.Options {
    LegacyIndex.Options(o.fileExtension, o.fileName, o.ignoreFiles, false)
  }

  /** The file results of the first generation for the same names. */
  function IndexResults(user: UserMatcher, files: seq<string>, o: Options): seq<Option<LegacyIndex.Module>> {
    seq(|files|, i requires 0 <= i < |files| => LegacyIndex.FileModule(user, files[i], AsIndexOptions(o)))
  }

  function Names(ms: seq<LegacyIndex.Module>): seq<string> {
    seq(|ms|, i requires 0 <= i < |ms| => ms[i].name)
  }

  /** The filter keeps exactly the files the first generation's `asFile`
      resolves, under the same names and in the same order. */
  lemma {:induction false} AgreesWithFirstGeneration(user: UserMatcher, files: seq<string>, o: Options)
    ensures ModuleNames(user, files, o) == Names(Present(IndexResults(user, files, o)))
    decreases |files|
  {
    if files != [] {
      var init := files[..|files| - 1];
      var last := files[|files| - 1];
      AgreesWithFirstGeneration(user, init, o);
      var xs := IndexResults(user, init, o);
      var x := LegacyIndex.FileModule(user, last, AsIndexOptions(o));
      assert IndexResults(user, files, o) == xs + [x];
      PresentSnoc(xs, x);
      var p := Present(xs);
      var tail := if x.Some? then [x.value] else [];
      assert Names(p + tail) == Names(p) + Names(tail);
    }
  }

  // ---------------------------------------------------------------------
  // createFileContents

  function ExportLine(name: string): string {
    "export { default as " + name + " } from './" + name + "';\r\n"
  }

  function ExportLines(modules: seq<string>): seq<string> {
    seq(|modules|, i requires 0 <= i < |modules| => ExportLine(modules[i]))
  }

  /** `createFileContents(modules)`: one export line per module, in order. */
  function CreateFileContents(modules: seq<string>): (r: string)
    ensures modules == [] ==> r == ""
  {
    if |modules| == 0 then "" else Concat(ExportLines(modules))
  }

  /** One more module adds one more line at the end. */
  lemma ContentsSnoc(modules: seq<string>, m: string)
    ensures CreateFileContents(modules + [m]) == CreateFileContents(modules) + ExportLine(m)
  {
    assert ExportLines(modules + [m]) == ExportLines(modules) + [ExportLine(m)];
    ConcatAppend(ExportLines(modules), [ExportLine(m)]);
    ConcatSingle(ExportLine(m));
  }

  function AsPlainModules(modules: seq<string>): seq<LegacyIndex.Module> {
    seq(|modules|, i requires 0 <= i < |modules| => LegacyIndex.Module(false, modules[i]))
  }

  /** For names of letters and digits, the text is what the first
      generation writes for the same plain modules. */
  lemma AgreesWithFirstGenerationContents(modules: seq<string>)
    requires forall i :: 0 <= i < |modules| ==> LegacyIndex.AllAlnum(modules[i])
    ensures CreateFileContents(modules) == LegacyIndex.CreateContents(AsPlainModules(modules))
  {
    var ms := AsPlainModules(modules);
    forall i | 0 <= i < |modules| ensures LegacyIndex.ModuleLine(ms[i]) == ExportLine(modules[i]) {
      LegacyIndex.AsNameKeepsAlnum(modules[i]);
    }
    assert seq(|ms|, i requires 0 <= i < |ms| => LegacyIndex.ModuleLine(ms[i])) == ExportLines(modules);
    assert LegacyIndex.IndexNames(ms) == [];
  }

  // ---------------------------------------------------------------------
  // createFile

  function IndexPath(dir: string, o: Options): string {
    PathJoin(dir, o.fileName + "." + o.fileExtension)
  }

  /** What `createFile` does once the modules are known: with modules, an
      unreadable index is written and a readable one is rewritten unless
      `compareContents` finds it equal; without modules the index is
      unlinked, and a missing index throws the access error. */
  function CreateFileStep(md5: string -> string, faults: Faults, files: map<string, string>,
                          index: string, modules: seq<string>): (r: Run)
    ensures r.ending != Resolved(index)
    ensures r.ending.Failed? ==> r.files == files
    ensures r.ending.Failed? ==>
      index in faults.unwritable || index in faults.undeletable || (|modules| == 0 && index !in files)
    ensures |modules| > 0 && (!CanRead(faults, files, index) || !AllSame(md5, [CreateFileContents(modules), files[index]])) ==>
      r == (if index in faults.unwritable then Run(Failed(WriteError(index)), files)
            else Run(Silent, files[index := CreateFileContents(modules)]))
    ensures |modules| > 0 && CanRead(faults, files, index) && AllSame(md5, [CreateFileContents(modules), files[index]]) ==>
      r == Run(Silent, files)
    ensures |modules| > 0 && r.ending == Silent && r.files != files ==> r.files == files[index := CreateFileContents(modules)]
    ensures |modules| == 0 && index !in files ==> r == Run(Failed(AccessError(index)), files)
    ensures |modules| == 0 && index in files ==>
      r == (if index in faults.undeletable then Run(Failed(UnlinkError(index)), files) else Run(Silent, files - {index}))
  {
    var contents := CreateFileContents(modules);
    if |modules| > 0 then
      if !CanRead(faults, files, index) || !AllSame(md5, [contents, files[index]]) then
        if index in faults.unwritable then Run(Failed(WriteError(index)), files)
        else Run(Silent, files[index := contents])
      else Run(Silent, files)
    else if index !in files then Run(Failed(AccessError(index)), files)
    else if index in faults.undeletable then Run(Failed(UnlinkError(index)), files)
    else Run(Silent, files - {index})
  }

  /** `createFile(rc, options)` for the modules `getModules` found. A read
      right after a successful `access(index, R_OK)` succeeds. */
  method CreateFile(md5: string -> string, fs: FileSystem, dir: string, o: Options, modules: seq<string>)
    returns (ending: Ending)
    modifies fs
    ensures Run(ending, fs.files) == CreateFileStep(md5, fs.faults, old(fs.files), IndexPath(dir, o), modules)
  {
    var index := IndexPath(dir, o);
    var contents := CreateFileContents(modules);
    ending := Silent;
    if |modules| > 0 {
      var readable := fs.AccessReadable(index);
      var write := true;
      if readable {
        var data := fs.ReadFile(index);
        assert data.Ok?;
        var same := CompareContents(md5, [contents, data.value]);
        write := !same;
      }
      if write {
        var ok := fs.WriteFile(index, contents);
        if !ok {
          ending := Failed(WriteError(index));
        }
      }
    } else {
      var present := fs.Access(index);
      if !present {
        ending := Failed(AccessError(index));
      } else {
        var ok := fs.Unlink(index);
        if !ok {
          ending := Failed(UnlinkError(index));
        }
      }
    }
  }

  /** Run again on the files it wrote, `createFile` leaves them alone. */
  lemma SecondRunWritesNothing(md5: string -> string, faults: Faults, files: map<string, string>,
                               index: string, modules: seq<string>)
    requires |modules| > 0 && index !in faults.unreadable
    requires CreateFileStep(md5, faults, files, index, modules).ending == Silent
    ensures var first := CreateFileStep(md5, faults, files, index, modules);
      CreateFileStep(md5, faults, first.files, index, modules) == Run(Silent, first.files)
  {
    var first := CreateFileStep(md5, faults, files, index, modules);
    if first.files == files {
      assert CanRead(faults, files, index);
    }
  }
}
