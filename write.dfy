/** The synchronisation of one declared directory (`src/module/write.ts`):
    list the modules, render the index, then add, update or remove the
    index file. The listed tree and the map of index files are two views of
    the disk; the index file inside the listed directory never reaches the
    module list, because the file filter drops the generated file
    (`ModuleList.GeneratedFileNotListed`). */
module WriteIndex {
  import opened Outcomes
  import opened Strings
  import opened Types
  import opened Difference
  import opened IndexContent
  import opened ModuleList
  import opened FileActions

  /** `join(options.path, `${fileName}.${fileExtension}`)`: the index file
      inside the declared directory, before `resolve`. */
  function IndexFile(o: Path): (q: string)
    ensures StartsWith(q, o.path + "/")
  {
    PathJoin(o.path, o.fileName + "." + o.fileExtension)
  }

  /** `resolve(join(options.path, `${fileName}.${fileExtension}`))`. */
  function IndexPath(env: Env, o: Path): string {
    env.resolve(IndexFile(o))
  }

  /** The path handed to `resolve` names the file `fileName.fileExtension`,
      when neither part holds a separator. */
  lemma IndexFileNamed(o: Path)
    requires '/' !in o.fileName + "." + o.fileExtension
    ensures LastSegment(IndexFile(o)) == o.fileName + "." + o.fileExtension
  {
    LastSegmentOfJoin(o.path, o.fileName + "." + o.fileExtension);
  }

  /** Two directories with the same file name and extension give different
      paths to `resolve`. */
  lemma IndexFileInjective(o: Path, o': Path)
    requires o.fileName == o'.fileName && o.fileExtension == o'.fileExtension
    requires IndexFile(o) == IndexFile(o')
    ensures o.path == o'.path
  {
    assert IndexFile(o)[..|o.path|] == o.path;
    assert IndexFile(o')[..|o'.path|] == o'.path;
  }

  /** The action's record extended with `content`, `modules` and `options`. */
  function Extend(r: Result<Fs>, content: string, modules: seq<Module>, o: Path): Result<Callback> {
    match r
    case Err(e) => Err(e)
    case Ok(fs) => Ok(Callback(fs.action, fs.message, content, modules, o))
  }

  /** What one run settles with and the index files after it. */
  datatype Outcome = Outcome(result: Result<Callback>, files: map<string, string>)

  /** The action chosen for a listing that is `nonEmpty` or not: add an
      unreadable index, update a readable one, remove it when there is
      nothing to export. */
  function Sync(hash: string -> string, faults: Faults, files: map<string, string>, index: string,
                content: string, nonEmpty: bool, test: bool): (s: Step)
    ensures test ==> s.files == files
    ensures !test && s.result.Ok? && (s.result.value.action == Add || s.result.value.action == Update) ==>
      index in s.files && s.files[index] == content
    ensures !test && s.result.Ok? && s.result.value.action == Remove ==> index !in s.files
  {
    if nonEmpty then
      if !CanRead(faults, files, index) then AddStep(faults, files, index, content, test)
      else UpdateStep(hash, faults, files, index, content, test)
    else RemoveStep(faults, files, index, test)
  }

  /** The decision table: a failed listing rejects; otherwise `Sync` acts on
      the index with the generated content. */
  function WriteStep(env: Env, faults: Faults, files: map<string, string>, tree: Listing, o: Path, config: Master): (r: Outcome)
    ensures List(env, tree, o, config.paths).Err? ==> r == Outcome(Err(List(env, tree, o, config.paths).error), files)
    ensures r.result.Ok? ==> r.result.value.options == o && r.result.value.modules == List(env, tree, o, config.paths).value
    ensures r.result.Ok? ==> r.result.value.content == Create(r.result.value.modules, o, "")
    ensures r.result.Err? ==> (List(env, tree, o, config.paths).Err? ||
      IndexPath(env, o) in faults.unwritable || IndexPath(env, o) in faults.undeletable)
    ensures config.test ==> (r.result.Err? <==> List(env, tree, o, config.paths).Err?)
  {
    match List(env, tree, o, config.paths)
    case Err(e) => Outcome(Err(e), files)
    case Ok(modules) =>
      var content := Create(modules, o, "");
      var s := Sync(env.hash, faults, files, IndexPath(env, o), content, |modules| > 0, config.test);
      Outcome(Extend(s.result, content, modules, o), s.files)
  }

  /** The default export, on a filesystem whose index files it changes. */
  method Write(env: Env, fs: FileSystem, tree: Listing, o: Path, config: Master) returns (r: Result<Callback>)
    modifies fs
    ensures Outcome(r, fs.files) == WriteStep(env, fs.faults, old(fs.files), tree, o, config)
  {
    var listed := List(env, tree, o, config.paths);
    if listed.Err? {
      return Err(listed.error);
    }
    var modules := listed.value;
    var index := IndexPath(env, o);
    var content := Create(modules, o, "");
    var data: Result<Fs>;
    if |modules| > 0 {
      var readable := fs.AccessReadable(index);
      if !readable {
        data := fs.Add(index, content, config);
      } else {
        data := fs.Update(env.hash, index, content, config);
      }
    } else {
      data := fs.Remove(index, config);
    }
    r := Extend(data, content, modules, o);
  }

  // ---------------------------------------------------------------------
  // Properties of the decision table.

  /** Which action a successful run reports. */
  lemma Decision(env: Env, faults: Faults, files: map<string, string>, tree: Listing, o: Path, config: Master)
    requires WriteStep(env, faults, files, tree, o, config).result.Ok?
    ensures var modules := List(env, tree, o, config.paths).value;
      var index := IndexPath(env, o);
      var a := WriteStep(env, faults, files, tree, o, config).result.value.action;
      (|modules| > 0 && !CanRead(faults, files, index) ==> a == Add) &&
      (|modules| > 0 && CanRead(faults, files, index) && config.test ==> a == Update) &&
      (|modules| > 0 && CanRead(faults, files, index) ==> a == Update || a == NoChange) &&
      (|modules| == 0 && index !in files ==> a == NoChange) &&
      (|modules| == 0 && index in files ==> a == Remove)
  {
  }

  /** A readable index is left alone exactly when its digest equals the
      digest of the generated content. */
  lemma UpdateBranchNoChange(env: Env, faults: Faults, files: map<string, string>, tree: Listing, o: Path, config: Master)
    requires List(env, tree, o, config.paths).Ok? && |List(env, tree, o, config.paths).value| > 0
    requires !config.test && CanRead(faults, files, IndexPath(env, o)) && IndexPath(env, o) !in faults.unwritable
    ensures var index := IndexPath(env, o);
      var content := Create(List(env, tree, o, config.paths).value, o, "");
      var r := WriteStep(env, faults, files, tree, o, config);
      r.result.Ok? && (r.result.value.action == NoChange <==> env.hash(files[index]) == env.hash(content))
  {
    var index := IndexPath(env, o);
    var content := Create(List(env, tree, o, config.paths).value, o, "");
    UpdateWritesIffDigestDiffers(env.hash, faults, files, index, content);
  }

  /** Test mode never changes the index files. */
  lemma TestModeChangesNothing(env: Env, faults: Faults, files: map<string, string>, tree: Listing, o: Path, config: Master)
    requires config.test
    ensures WriteStep(env, faults, files, tree, o, config).files == files
  {
  }

  /** Outside test mode a successful add or update leaves the index holding
      the generated content, and a successful remove deletes it. */
  lemma IndexAfterRun(env: Env, faults: Faults, files: map<string, string>, tree: Listing, o: Path, config: Master)
    requires !config.test
    requires WriteStep(env, faults, files, tree, o, config).result.Ok?
    ensures var r := WriteStep(env, faults, files, tree, o, config);
      var index := IndexPath(env, o);
      (r.result.value.action == Add || r.result.value.action == Update ==>
        index in r.files && r.files[index] == r.result.value.content) &&
      (r.result.value.action == Remove ==> index !in r.files)
  {
  }

  /** Running twice on unchanged inputs: the second run finds nothing to do,
      provided the index can be read back. */
  lemma SecondRunIsNoChange(env: Env, faults: Faults, files: map<string, string>, tree: Listing, o: Path, config: Master)
    requires !config.test && IndexPath(env, o) !in faults.unreadable
    requires WriteStep(env, faults, files, tree, o, config).result.Ok?
    ensures var first := WriteStep(env, faults, files, tree, o, config);
      var second := WriteStep(env, faults, first.files, tree, o, config);
      second.result.Ok? && second.result.value.action == NoChange && second.files == first.files
  {
    var modules := List(env, tree, o, config.paths).value;
    var index := IndexPath(env, o);
    var content := Create(modules, o, "");
    if |modules| > 0 {
      if !CanRead(faults, files, index) {
        AddThenUpdateIsNoChange(env.hash, faults, files, index, content);
      } else {
        UpdateTwiceIsNoChange(env.hash, faults, files, index, content);
      }
    }
  }
}
