/** The first command-line script, `bin/esm-index.ts`: the filter and export
    lines of `readFolder` and the decision of `indexFile`. The extension (the
    `--ext` argument, `js` by default), the directory of the `.indexrc.json`
    file, the names `fs.readdir` gives and the parsed `ignoreFiles` list are
    parameters; an exception thrown in a callback is a `Failed` ending. */
module LegacyBin {
  import opened Outcomes
  import opened Strings
  import opened Regex
  import opened LegacyFilter
  import opened LegacyHash
  import opened FileActions
  import LegacyCli

  /** The patterns of `readFolder`: the index file is `^index\.<ext>$`, and
      the plain entries are anchored at the end too. */
  function BinPatterns(ext: string, ignoreFiles: seq<string>): seq<Pattern> {
    Patterns(NamePattern("index", ext, true), ext, ignoreFiles, true)
  }

  /** The names the filter keeps, in `readdir` order. */
  function KeptFiles(user: UserMatcher, files: seq<string>, ext: string, ignoreFiles: seq<string>): (r: seq<string>)
    ensures |r| <= |files|
    ensures forall f :: f in r ==> f in files && Kept(user, f, ext, BinPatterns(ext, ignoreFiles))
    ensures forall i :: 0 <= i < |files| && Kept(user, files[i], ext, BinPatterns(ext, ignoreFiles)) ==> files[i] in r
    decreases |files|
  {
    if files == [] then []
    else
      var last := files[|files| - 1];
      var init := KeptFiles(user, files[..|files| - 1], ext, ignoreFiles);
      assert forall f :: f in files[..|files| - 1] ==> f in files;
      assert forall i :: 0 <= i < |files| - 1 ==> files[i] == files[..|files| - 1][i];
      init + (if Kept(user, last, ext, BinPatterns(ext, ignoreFiles)) then [last] else [])
  }

  /** Each name with the filter's verdict: itself when kept, `null` when not. */
  function Verdicts(user: UserMatcher, files: seq<string>, ext: string, ignoreFiles: seq<string>): seq<Option<string>> {
    seq(|files|, i requires 0 <= i < |files| =>
      if Kept(user, files[i], ext, BinPatterns(ext, ignoreFiles)) then Some(files[i]) else None)
  }

  /** The kept names are exactly the names the filter accepts, each in its
      `readdir` place: `files.filter(…)`. */
  lemma {:induction false} KeptInOrder(user: UserMatcher, files: seq<string>, ext: string, ignoreFiles: seq<string>)
    ensures KeptFiles(user, files, ext, ignoreFiles) == Present(Verdicts(user, files, ext, ignoreFiles))
    decreases |files|
  {
    if files != [] {
      var init := files[..|files| - 1];
      var last := files[|files| - 1];
      KeptInOrder(user, init, ext, ignoreFiles);
      var xs := Verdicts(user, init, ext, ignoreFiles);
      var x := if Kept(user, last, ext, BinPatterns(ext, ignoreFiles)) then Some(last) else None;
      assert Verdicts(user, files, ext, ignoreFiles) == xs + [x];
      PresentSnoc(xs, x);
    }
  }

  /** The export line pushed for one module name. */
  function BinLine(name: string): string {
    "export { default as " + name + " } from './" + name + "';"
  }

  function BinLines(kept: seq<string>, ext: string): (r: seq<string>)
    ensures |r| == |kept|
  {
    seq(|kept|, i requires 0 <= i < |kept| => BinLine(Basename(kept[i], "." + ext)))
  }

  /** What `readFolder` hands to its callback: `null` when no file is kept,
      otherwise the lines joined with CRLF after an empty last line. */
  function FolderContents(user: UserMatcher, files: seq<string>, ext: string, ignoreFiles: seq<string>): (r: Option<string>)
    ensures r.None? <==> KeptFiles(user, files, ext, ignoreFiles) == []
    ensures r.None? <==> forall i :: 0 <= i < |files| ==> !Kept(user, files[i], ext, BinPatterns(ext, ignoreFiles))
  {
    var kept := KeptFiles(user, files, ext, ignoreFiles);
    var lines := BinLines(kept, ext);
    if |lines| > 0 then
      assert kept[0] in files && exists i :: 0 <= i < |files| && files[i] == kept[0];
      Some(Join(lines + [""], "\r\n"))
    else None
  }

  /** `readFolder(rc, callback)`: the filter over the names and the loop
      that pushes one line per kept name. */
  method ReadFolder(user: UserMatcher, files: seq<string>, ext: string, ignoreFiles: seq<string>)
    returns (contents: Option<string>)
    ensures contents == FolderContents(user, files, ext, ignoreFiles)
  {
    var patterns := BinPatterns(ext, ignoreFiles);
    var kept := [];
    for i := 0 to |files|
      invariant kept == KeptFiles(user, files[..i], ext, ignoreFiles)
    {
      assert files[..i + 1][..i] == files[..i];
      var pass := Passes(user, files[i], ext, patterns);
      if pass {
        kept := kept + [files[i]];
      }
    }
    assert files[..|files|] == files;
    var lines := [];
    for i := 0 to |kept|
      invariant |lines| == i
      invariant forall j :: 0 <= j < i ==> lines[j] == BinLine(Basename(kept[j], "." + ext))
    {
      lines := lines + [BinLine(Basename(kept[i], "." + ext))];
    }
    assert lines == BinLines(kept, ext);
    if |lines| > 0 {
      contents := Some(Join(lines + [""], "\r\n"));
    } else {
      contents := None;
    }
  }

  // ---------------------------------------------------------------------
  // What the filter keeps.

  /** A file is kept exactly when it has the extension, is no declaration,
      spec or test file, is not `index.<ext>` itself and no entry matches. */
  lemma BinKeptExactly(user: UserMatcher, file: string, ext: string, ignoreFiles: seq<string>)
    ensures Kept(user, file, ext, BinPatterns(ext, ignoreFiles)) <==>
      HasExtension(file, ext) && !EndsWith(file, ".d.ts") &&
      !Contains(file, ".spec." + ext) && !Contains(file, ".test." + ext) &&
      file != "index." + ext &&
      forall k :: 0 <= k < |ignoreFiles| ==> !Test(user, EntryPattern(ignoreFiles[k], ext, true), file)
  {
    var ps := BinPatterns(ext, ignoreFiles);
    KeptExactly(user, file, ext, ps);
    DeclarationMeaning(user, file);
    SpecTestMeaning(user, file, ext);
    NameMeaning(user, file, "index", ext);
    if HasExtension(file, ext) && !EndsWith(file, ".d.ts") &&
       !Contains(file, ".spec." + ext) && !Contains(file, ".test." + ext) &&
       file != "index." + ext &&
       forall k :: 0 <= k < |ignoreFiles| ==> !Test(user, EntryPattern(ignoreFiles[k], ext, true), file)
    {
      forall k | 0 <= k < |ps| ensures !Test(user, ps[k], file) {
        if k >= 3 {
          assert ps[k] == EntryPattern(ignoreFiles[k - 3], ext, true);
        }
      }
    }
    if Kept(user, file, ext, ps) {
      forall k | 0 <= k < |ignoreFiles| ensures !Test(user, EntryPattern(ignoreFiles[k], ext, true), file) {
        assert ps[3 + k] == EntryPattern(ignoreFiles[k], ext, true);
        assert !Test(user, ps[3 + k], file);
      }
    }
  }

  /** A plain entry drops exactly the one file with its base name and the
      extension, where the other entry points drop every name starting so. */
  lemma PlainEntryIsExact(user: UserMatcher, entry: string, file: string, ext: string)
    requires !StartsWith(entry, "/")
    ensures Test(user, EntryPattern(entry, ext, true), file) <==> file == Basename(entry, "." + ext) + "." + ext
    ensures Test(user, EntryPattern(entry, ext, false), file) <==> StartsWith(file, Basename(entry, "." + ext) + "." + ext)
  {
    NameMeaning(user, file, Basename(entry, "." + ext), ext);
  }

  /** The index file the script writes is never one of its modules. */
  lemma IndexNeverListed(user: UserMatcher, files: seq<string>, ext: string, ignoreFiles: seq<string>)
    ensures "index." + ext !in KeptFiles(user, files, ext, ignoreFiles)
  {
    BinKeptExactly(user, "index." + ext, ext, ignoreFiles);
  }

  // ---------------------------------------------------------------------
  // The text of the index.

  /** `[x] + ys` folds to `x` followed by the fold of `ys`. */
  lemma ConcatCons(x: string, ys: seq<string>)
    ensures Concat([x] + ys) == x + Concat(ys)
  {
    ConcatAppend([x], ys);
    ConcatSingle(x);
  }

  /** Joining with CRLF after an empty last line ends every line with CRLF. */
  lemma {:induction false} JoinTrailing(ls: seq<string>)
    ensures Join(ls + [""], "\r\n") == Concat(seq(|ls|, i requires 0 <= i < |ls| => ls[i] + "\r\n"))
    decreases |ls|
  {
    var terminated := seq(|ls|, i requires 0 <= i < |ls| => ls[i] + "\r\n");
    if ls != [] {
      var rest := ls[1..];
      JoinTrailing(rest);
      assert (ls + [""])[1..] == rest + [""];
      assert Join(ls + [""], "\r\n") == ls[0] + "\r\n" + Join(rest + [""], "\r\n");
      var restTerminated := seq(|rest|, i requires 0 <= i < |rest| => rest[i] + "\r\n");
      assert terminated == [ls[0] + "\r\n"] + restTerminated;
      ConcatCons(ls[0] + "\r\n", restTerminated);
    } else {
      assert ls + [""] == [""];
    }
  }

  /** The module names of the kept files. */
  function ModuleNames(kept: seq<string>, ext: string): (r: seq<string>)
    ensures |r| == |kept|
  {
    seq(|kept|, i requires 0 <= i < |kept| => Basename(kept[i], "." + ext))
  }

  /** The text is the one `createFileContents` of `src/cli.ts` builds for the
      same names: every line ends with CRLF. */
  lemma ContentsAgreeWithCli(user: UserMatcher, files: seq<string>, ext: string, ignoreFiles: seq<string>)
    requires KeptFiles(user, files, ext, ignoreFiles) != []
    ensures FolderContents(user, files, ext, ignoreFiles) ==
      Some(LegacyCli.CreateFileContents(ModuleNames(KeptFiles(user, files, ext, ignoreFiles), ext)))
  {
    var kept := KeptFiles(user, files, ext, ignoreFiles);
    var lines := BinLines(kept, ext);
    var names := ModuleNames(kept, ext);
    JoinTrailing(lines);
    forall i | 0 <= i < |lines| ensures lines[i] + "\r\n" == LegacyCli.ExportLine(names[i]) {
      var n := names[i];
      assert lines[i] == "export { default as " + n + " } from './" + n + "';";
    }
    assert seq(|lines|, i requires 0 <= i < |lines| => lines[i] + "\r\n") == LegacyCli.ExportLines(names);
  }

  // ---------------------------------------------------------------------
  // indexFile

  /** `path.join(path.dirname(rc), `index.${fileExt}`)`. */
  function IndexPath(dir: string, ext: string): string {
    PathJoin(dir, "index." + ext)
  }

  /** What `indexFile` does with the text `readFolder` gave: an existing
      index is read and rewritten only when its digest differs (reading an
      unreadable one throws, as the digest of `undefined` cannot be taken),
      a missing one is written; without text an existing index is unlinked
      and a missing one left alone. */
  function IndexFileStep(md5: string -> string, faults: Faults, files: map<string, string>,
                         index: string, contents: Option<string>): (r: Run)
    ensures r.ending != Resolved(index)
    ensures r.ending.Failed? ==> r.files == files
    ensures contents.Some? && index !in files ==>
      r == (if index in faults.unwritable then Run(Failed(WriteError(index)), files)
            else Run(Silent, files[index := contents.value]))
    ensures contents.Some? && index in files && index in faults.unreadable ==> r == Run(Failed(ReadError(index)), files)
    ensures contents.Some? && CanRead(faults, files, index) && AllSame(md5, [contents.value, files[index]]) ==>
      r == Run(Silent, files)
    ensures contents.Some? && CanRead(faults, files, index) && !AllSame(md5, [contents.value, files[index]]) ==>
      r == (if index in faults.unwritable then Run(Failed(WriteError(index)), files)
            else Run(Silent, files[index := contents.value]))
    ensures contents.Some? && r.ending == Silent && r.files != files ==> r.files == files[index := contents.value]
    ensures contents.None? && index !in files ==> r == Run(Silent, files)
    ensures contents.None? && index in files ==>
      r == (if index in faults.undeletable then Run(Failed(UnlinkError(index)), files) else Run(Silent, files - {index}))
    ensures r.ending.Failed? ==>
      index in faults.unreadable || index in faults.unwritable || index in faults.undeletable
  {
    match contents
    case Some(c) =>
      if index in files then
        if index in faults.unreadable then Run(Failed(ReadError(index)), files)
        else if !AllSame(md5, [c, files[index]]) then
          if index in faults.unwritable then Run(Failed(WriteError(index)), files)
          else Run(Silent, files[index := c])
        else Run(Silent, files)
      else if index in faults.unwritable then Run(Failed(WriteError(index)), files)
      else Run(Silent, files[index := c])
    case None =>
      if index !in files then Run(Silent, files)
      else if index in faults.undeletable then Run(Failed(UnlinkError(index)), files)
      else Run(Silent, files - {index})
  }

  /** `indexFile(rc)`. */
  method IndexFile(md5: string -> string, user: UserMatcher, fs: FileSystem, dir: string, ext: string,
                   files: seq<string>, ignoreFiles: seq<string>) returns (ending: Ending)
    modifies fs
    ensures Run(ending, fs.files) ==
      IndexFileStep(md5, fs.faults, old(fs.files), IndexPath(dir, ext), FolderContents(user, files, ext, ignoreFiles))
  {
    var contents := ReadFolder(user, files, ext, ignoreFiles);
    var index := IndexPath(dir, ext);
    ending := Silent;
    var present := fs.Access(index);
    match contents {
      case Some(c) =>
        var write := true;
        if present {
          var data := fs.ReadFile(index);
          if data.Err? {
            ending := Failed(ReadError(index));
            write := false;
          } else {
            var same := CompareContents(md5, [c, data.value]);
            write := !same;
          }
        }
        if write {
          var ok := fs.WriteFile(index, c);
          if !ok {
            ending := Failed(WriteError(index));
          }
        }
      case None =>
        if present {
          var ok := fs.Unlink(index);
          if !ok {
            ending := Failed(UnlinkError(index));
          }
        }
    }
  }

  /** Run again on the files it left, `indexFile` changes nothing. */
  lemma SecondRunWritesNothing(md5: string -> string, faults: Faults, files: map<string, string>,
                               index: string, contents: Option<string>)
    requires index !in faults.unreadable
    requires IndexFileStep(md5, faults, files, index, contents).ending == Silent
    ensures var first := IndexFileStep(md5, faults, files, index, contents);
      IndexFileStep(md5, faults, first.files, index, contents) == Run(Silent, first.files)
  {
  }

  /** After a quiet run with text, the index holds text of the same digest. */
  lemma IndexHoldsContents(md5: string -> string, faults: Faults, files: map<string, string>,
                           index: string, c: string)
    requires IndexFileStep(md5, faults, files, index, Some(c)).ending == Silent
    ensures var r := IndexFileStep(md5, faults, files, index, Some(c));
      index in r.files && GetHash(md5, r.files[index]) == GetHash(md5, c)
  {
    if index in files && CanRead(faults, files, index) && AllSame(md5, [c, files[index]]) {
      assert [c, files[index]][1] == files[index];
    }
  }
}
