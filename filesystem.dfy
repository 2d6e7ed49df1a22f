/** The filesystem actions of the files under `src/module/fs`: `idle`, `add`, `update`
    and `remove`. The files are a map from path to text. Which paths cannot
    be read, written or unlinked is fixed for the life of a filesystem. A
    rejected promise is an `Err`, and it leaves the files as they were. Each
    action is a method of `FileSystem` that follows the source step by step,
    and a pure `…Step` function over the same files that every method is
    proved against. */
module FileActions {
  import opened Outcomes
  import opened Types
  import opened Difference

  /** The paths on which a primitive fails. */
  datatype Faults = Faults(unreadable: set<string>, unwritable: set<string>, undeletable: set<string>)

  /** What an action settles with and the files after it. */
  datatype Step = Step(result: Result<Fs>, files: map<string, string>)

  /** `access(path, R_OK)`: the file exists and may be read. */
  predicate CanRead(faults: Faults, files: map<string, string>, path: string) {
    path in files && path !in faults.unreadable
  }

  function Quoted(path: string): string {
    "\"" + path + "\""
  }

  /** `idle(path)`. */
  function Idle(path: string): (r: Fs)
    ensures r.action == NoChange
  {
    Fs(NoChange, "No changes: " + Quoted(path))
  }

  /** Different paths give different no-change messages. */
  lemma IdleInjective(p: string, q: string)
    requires Idle(p) == Idle(q)
    ensures p == q
  {
    var prefix := "No changes: \"";
    assert Idle(p).message == prefix + (p + "\"");
    assert Idle(q).message == prefix + (q + "\"");
    assert (prefix + (p + "\""))[|prefix|..] == p + "\"";
    assert (prefix + (q + "\""))[|prefix|..] == q + "\"";
    assert p == (p + "\"")[..|p|];
    assert q == (q + "\"")[..|q|];
  }

  /** The report of `add`. */
  function Created(path: string): (r: Fs)
    ensures r.action == Add
  {
    Fs(Add, "Created: " + Quoted(path))
  }

  /** The report of `update` when it writes. */
  function Updated(path: string): (r: Fs)
    ensures r.action == Update
  {
    Fs(Update, "Updated: " + Quoted(path))
  }

  /** The report of `remove` when it unlinks. */
  function Removed(path: string): (r: Fs)
    ensures r.action == Remove
  {
    Fs(Remove, "Removed: " + Quoted(path))
  }

  /** The message names the quoted path after a fixed prefix. */
  lemma QuotedInjective(prefix: string, p: string, q: string)
    requires prefix + Quoted(p) == prefix + Quoted(q)
    ensures p == q
  {
    assert (prefix + Quoted(p))[|prefix| + 1..] == p + "\"";
    assert (prefix + Quoted(q))[|prefix| + 1..] == q + "\"";
    assert p == (p + "\"")[..|p|];
    assert q == (q + "\"")[..|q|];
  }

  /** Each report tells the paths apart. */
  lemma ReportsInjective(p: string, q: string)
    ensures Created(p) == Created(q) ==> p == q
    ensures Updated(p) == Updated(q) ==> p == q
    ensures Removed(p) == Removed(q) ==> p == q
  {
    if Created(p) == Created(q) { QuotedInjective("Created: ", p, q); }
    if Updated(p) == Updated(q) { QuotedInjective("Updated: ", p, q); }
    if Removed(p) == Removed(q) { QuotedInjective("Removed: ", p, q); }
  }

  /** `add(path, content, config)`. */
  function AddStep(faults: Faults, files: map<string, string>, path: string, content: string, test: bool): (r: Step)
    ensures r.result.Ok? ==> r.result.value == Created(path)
    ensures r.result.Err? ==> r.result.error == WriteError(path) && r.files == files
    ensures test ==> r == Step(Ok(Created(path)), files)
    ensures !test && r.result.Ok? ==> r.files == files[path := content]
    ensures r.result.Err? <==> !test && path in faults.unwritable
  {
    if test then Step(Ok(Created(path)), files)
    else if path in faults.unwritable then Step(Err(WriteError(path)), files)
    else Step(Ok(Created(path)), files[path := content])
  }

  /** `update(path, content, config)`: in test mode nothing is read; otherwise
      the file is read, and written only when it differs from `content`. */
  function UpdateStep(hash: string -> string, faults: Faults, files: map<string, string>, path: string, content: string, test: bool): (r: Step)
    ensures test ==> r == Step(Ok(Updated(path)), files)
    ensures !test && !CanRead(faults, files, path) ==> r == Step(Err(ReadError(path)), files)
    ensures r.result.Ok? && r.result.value.action == NoChange ==> r.files == files && r.result.value == Idle(path)
    ensures r.result.Ok? ==> r.result.value == Updated(path) || r.result.value == Idle(path)
    ensures r.result.Err? ==> r.files == files
    ensures !test && CanRead(faults, files, path) ==>
      (r.result.Err? <==> Compare(hash, [content, files[path]]) && path in faults.unwritable)
  {
    if test then Step(Ok(Updated(path)), files)
    else if !CanRead(faults, files, path) then Step(Err(ReadError(path)), files)
    else if Compare(hash, [content, files[path]]) then
      if path in faults.unwritable then Step(Err(WriteError(path)), files)
      else Step(Ok(Updated(path)), files[path := content])
    else Step(Ok(Idle(path)), files)
  }

  /** `remove(path, config)`: an absent file is no change; a present one is
      unlinked unless in test mode. */
  function RemoveStep(faults: Faults, files: map<string, string>, path: string, test: bool): (r: Step)
    ensures path !in files ==> r == Step(Ok(Idle(path)), files)
    ensures path in files && test ==> r == Step(Ok(Removed(path)), files)
    ensures r.result.Err? ==> r.result.error == UnlinkError(path) && r.files == files
    ensures path in files && !test && r.result.Ok? ==> r.result.value == Removed(path) && r.files == files - {path}
    ensures r.result.Err? <==> path in files && !test && path in faults.undeletable
  {
    if path !in files then Step(Ok(Idle(path)), files)
    else if test then Step(Ok(Removed(path)), files)
    else if path in faults.undeletable then Step(Err(UnlinkError(path)), files)
    else Step(Ok(Removed(path)), files - {path})
  }

  /** A filesystem whose files the actions change in place. */
  class FileSystem {
    var files: map<string, string>
    const faults: Faults

    constructor(files: map<string, string>, faults: Faults)
      ensures this.files == files && this.faults == faults
    {
      this.files := files;
      this.faults := faults;
    }

    /** `access(path)`: the file exists. */
    method Access(path: string) returns (ok: bool)
      ensures ok <==> path in files
    {
      ok := path in files;
    }

    /** `access(path, R_OK)`. */
    method AccessReadable(path: string) returns (ok: bool)
      ensures ok <==> CanRead(faults, files, path)
    {
      ok := path in files && path !in faults.unreadable;
    }

    /** `readFile(path, 'utf8')`. */
    method ReadFile(path: string) returns (r: Result<string>)
      ensures CanRead(faults, files, path) ==> r == Ok(files[path])
      ensures !CanRead(faults, files, path) ==> r == Err(ReadError(path))
    {
      if path in files && path !in faults.unreadable {
        r := Ok(files[path]);
      } else {
        r := Err(ReadError(path));
      }
    }

    /** `writeFile(path, content)`. */
    method WriteFile(path: string, content: string) returns (ok: bool)
      modifies this
      ensures ok <==> path !in faults.unwritable
      ensures files == if ok then old(files)[path := content] else old(files)
    {
      ok := path !in faults.unwritable;
      if ok {
        files := files[path := content];
      }
    }

    /** `unlink(path)` of an existing file. */
    method Unlink(path: string) returns (ok: bool)
      modifies this
      ensures ok <==> path !in faults.undeletable
      ensures files == if ok then old(files) - {path} else old(files)
    {
      ok := path !in faults.undeletable;
      if ok {
        files := files - {path};
      }
    }

    method Add(path: string, content: string, config: Master) returns (r: Result<Fs>)
      modifies this
      ensures Step(r, files) == AddStep(faults, old(files), path, content, config.test)
    {
      if config.test {
        r := Ok(Created(path));
      } else {
        var ok := WriteFile(path, content);
        r := if ok then Ok(Created(path)) else Err(WriteError(path));
      }
    }

    method Update(hash: string -> string, path: string, content: string, config: Master) returns (r: Result<Fs>)
      modifies this
      ensures Step(r, files) == UpdateStep(hash, faults, old(files), path, content, config.test)
    {
      if config.test {
        r := Ok(Updated(path));
      } else {
        var data := ReadFile(path);
        match data
        case Err(e) =>
          r := Err(e);
        case Ok(text) =>
          if Compare(hash, [content, text]) {
            var ok := WriteFile(path, content);
            r := if ok then Ok(Updated(path)) else Err(WriteError(path));
          } else {
            r := Ok(Idle(path));
          }
      }
    }

    method Remove(path: string, config: Master) returns (r: Result<Fs>)
      modifies this
      ensures Step(r, files) == RemoveStep(faults, old(files), path, config.test)
    {
      var present := Access(path);
      if !present {
        r := Ok(Idle(path));
      } else if config.test {
        r := Ok(Removed(path));
      } else {
        var ok := Unlink(path);
        r := if ok then Ok(Removed(path)) else Err(UnlinkError(path));
      }
    }
  }

  // ---------------------------------------------------------------------
  // Properties of the actions.

  /** Test mode never changes the files, whatever the action. */
  lemma TestModeKeepsFiles(hash: string -> string, faults: Faults, files: map<string, string>, path: string, content: string)
    ensures AddStep(faults, files, path, content, true).files == files
    ensures UpdateStep(hash, faults, files, path, content, true).files == files
    ensures RemoveStep(faults, files, path, true).files == files
  {
  }

  /** A successful update leaves the file holding `content`, and an
      unchanged file is left as it is. */
  lemma UpdateLeavesContent(hash: string -> string, faults: Faults, files: map<string, string>, path: string, content: string)
    requires UpdateStep(hash, faults, files, path, content, false).result.Ok?
    ensures var r := UpdateStep(hash, faults, files, path, content, false);
      path in r.files && (r.result.value.action == Update ==> r.files == files[path := content])
  {
  }

  /** The file is rewritten exactly when its digest differs from the
      digest of the new content. */
  lemma UpdateWritesIffDigestDiffers(hash: string -> string, faults: Faults, files: map<string, string>, path: string, content: string)
    requires CanRead(faults, files, path) && path !in faults.unwritable
    ensures UpdateStep(hash, faults, files, path, content, false).result == Ok(Updated(path))
        <==> hash(files[path]) != hash(content)
  {
    var r := UpdateStep(hash, faults, files, path, content, false);
    assert [content, files[path]][1] == files[path];
    if hash(files[path]) == hash(content) {
      assert r.result == Ok(Idle(path));
      assert Idle(path).action != Updated(path).action;
    }
  }

  /** A second update with the same content finds nothing to do. */
  lemma UpdateTwiceIsNoChange(hash: string -> string, faults: Faults, files: map<string, string>, path: string, content: string)
    requires UpdateStep(hash, faults, files, path, content, false).result.Ok?
    ensures var first := UpdateStep(hash, faults, files, path, content, false);
      UpdateStep(hash, faults, first.files, path, content, false) == Step(Ok(Idle(path)), first.files)
  {
    var first := UpdateStep(hash, faults, files, path, content, false);
    if first.result.value.action == Update {
      SameText(hash, content);
    }
  }

  /** A second remove finds no file. */
  lemma RemoveTwiceIsNoChange(faults: Faults, files: map<string, string>, path: string)
    requires RemoveStep(faults, files, path, false).result.Ok?
    ensures var first := RemoveStep(faults, files, path, false);
      RemoveStep(faults, first.files, path, false) == Step(Ok(Idle(path)), first.files)
  {
  }

  /** An add followed by an update with the same content is no change. */
  lemma AddThenUpdateIsNoChange(hash: string -> string, faults: Faults, files: map<string, string>, path: string, content: string)
    requires AddStep(faults, files, path, content, false).result.Ok? && path !in faults.unreadable
    ensures var first := AddStep(faults, files, path, content, false);
      UpdateStep(hash, faults, first.files, path, content, false) == Step(Ok(Idle(path)), first.files)
  {
    SameText(hash, content);
  }

  /** Every action touches at most its own path. */
  lemma OnlyOwnPath(hash: string -> string, faults: Faults, files: map<string, string>, path: string, content: string, test: bool, other: string)
    requires other != path
    ensures var a := AddStep(faults, files, path, content, test).files;
      var u := UpdateStep(hash, faults, files, path, content, test).files;
      var d := RemoveStep(faults, files, path, test).files;
      (other in a <==> other in files) && (other in u <==> other in files) && (other in d <==> other in files) &&
      (other in files ==> a[other] == files[other] && u[other] == files[other] && d[other] == files[other])
  {
  }
}
