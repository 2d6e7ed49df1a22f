/** The directory lister of `src/module/list.ts`. The filesystem below a
    directory is a finite tree: each entry of a readable directory either
    fails to stat, is a file, or is a sub-directory with its own listing.
    The listing reached through a declared path whose normalised path equals
    the entry's is that entry's sub-tree. A promise becomes a `Result`; when
    several entries reject, the first in listing order is reported. */
module ModuleList {
  import opened Outcomes
  import opened Strings
  import opened Types
  import opened Ordering
  import opened ResolveFile
  import opened ResolveDirectory

  datatype Listing = Unreadable | Readable(entries: seq<Entry>)
  datatype Entry = Entry(name: string, stat: Stat)
  datatype Stat = StatFailure | FileStat | DirectoryStat(listing: Listing)

  function IsRec(m: Module): bool { m.hasRecursion }
  function NameOf(m: Module): string { m.name }

  /** `module.fileExtension == options.fileExtension && normalize(module.path)
      == normalize(join(path, file))`: the declared path `candidate` is the
      directory at `entryPath`. */
  predicate Declares(env: Env, candidate: Path, o: Path, entryPath: string) {
    candidate.fileExtension == o.fileExtension &&
    env.normalize(candidate.path) == env.normalize(entryPath)
  }

  /** `paths.filter(…)[0]`: the first declared path for the entry. */
  function FirstDeclared(env: Env, paths: seq<Path>, o: Path, entryPath: string): (r: Option<Path>)
    ensures r.None? <==> forall k :: 0 <= k < |paths| ==> !Declares(env, paths[k], o, entryPath)
    ensures r.Some? ==> exists k :: (0 <= k < |paths| && paths[k] == r.value &&
      Declares(env, paths[k], o, entryPath) &&
      forall j :: 0 <= j < k ==> !Declares(env, paths[j], o, entryPath))
  {
    if paths == [] then None
    else if Declares(env, paths[0], o, entryPath) then Some(paths[0])
    else
      var r := FirstDeclared(env, paths[1..], o, entryPath);
      assert forall k :: 0 < k < |paths| ==> paths[k] == paths[1..][k - 1];
      r
  }

  /** One entry of the directory `dir`: recurse into a declared
      sub-directory when `recursion` is on, otherwise hand the name to the
      file filter. A failed `stat` rejects, and the callback, which does not
      return after `fail(err)`, goes on: with `recursion` on and a declared
      path for the entry it calls `isDirectory` on the missing `stats` and
      throws. */
  function ResolveEntry(env: Env, dir: string, e: Entry, o: Path, paths: seq<Path>): (r: Result<Option<Module>>)
    decreases e, 0, 0
    ensures e.stat.StatFailure? ==>
      r == if o.recursion && FirstDeclared(env, paths, o, PathJoin(dir, e.name)).Some?
        then Err(Crash(PathJoin(dir, e.name))) else Err(StatError(PathJoin(dir, e.name)))
    ensures r.Ok? && r.value.Some? && r.value.value.hasRecursion ==>
      o.recursion && e.stat.DirectoryStat? && FirstDeclared(env, paths, o, PathJoin(dir, e.name)).Some?
  {
    match e.stat
    case StatFailure =>
      if o.recursion && FirstDeclared(env, paths, o, PathJoin(dir, e.name)).Some?
      then Err(Crash(PathJoin(dir, e.name)))
      else Err(StatError(PathJoin(dir, e.name)))
    case FileStat => Ok(AsFile(env, e.name, o))
    case DirectoryStat(sub) =>
      var child := FirstDeclared(env, paths, o, PathJoin(dir, e.name));
      if o.recursion && child.Some? then
        match List(env, sub, child.value, paths)
        case Err(err) => Err(err)
        case Ok(modules) => Ok(AsDirectory(env, PathJoin(dir, e.name), modules, child.value))
      else Ok(AsFile(env, e.name, o))
  }

  /** `Promise.all` over the entries from index `i` on. */
  function ResolveFrom(env: Env, dir: string, listing: Listing, i: nat, o: Path, paths: seq<Path>): (r: Result<seq<Option<Module>>>)
    requires listing.Readable? && i <= |listing.entries|
    decreases listing, 0, |listing.entries| - i
    ensures r.Ok? ==> |r.value| == |listing.entries| - i
  {
    if i == |listing.entries| then Ok([])
    else
      match ResolveEntry(env, dir, listing.entries[i], o, paths)
      case Err(err) => Err(err)
      case Ok(m) =>
        match ResolveFrom(env, dir, listing, i + 1, o, paths)
        case Err(err) => Err(err)
        case Ok(rest) => Ok([m] + rest)
  }

  /** `list(options, paths)`: the non-null modules of the directory at
      `normalize(options.path)`, recursion entries first, plain entries by
      name. For an inaccessible or unreadable directory the promise
      resolves to `[]`, but the callback does not return: it calls `map` on
      the missing file list and throws, which ends the process. */
  function List(env: Env, listing: Listing, o: Path, paths: seq<Path>): (r: Result<seq<Module>>)
    decreases listing, 1, 0
    ensures listing.Unreadable? ==> r == Err(Crash(env.normalize(o.path)))
    ensures r.Ok? ==> Canonical(IsRec, NameOf, r.value)
  {
    match listing
    case Unreadable => Err(Crash(env.normalize(o.path)))
    case Readable(entries) =>
      match ResolveFrom(env, env.normalize(o.path), listing, 0, o, paths)
      case Err(err) => Err(err)
      case Ok(results) => Ok(Sort(IsRec, NameOf, Present(results)))
  }

  // ---------------------------------------------------------------------
  // Properties of the lister.

  /** What each entry settles with, `null` standing in for a rejection. */
  function Settled(env: Env, dir: string, entries: seq<Entry>, o: Path, paths: seq<Path>): (r: seq<Option<Module>>)
    ensures |r| == |entries|
    ensures forall k :: 0 <= k < |entries| && ResolveEntry(env, dir, entries[k], o, paths).Ok? ==>
      r[k] == ResolveEntry(env, dir, entries[k], o, paths).value
  {
    seq(|entries|, k requires 0 <= k < |entries| =>
      match ResolveEntry(env, dir, entries[k], o, paths)
      case Ok(v) => v
      case Err(_) => None)
  }

  /** The joined promise settles with every entry's own result, in order,
      exactly when no entry rejects. */
  lemma {:induction false} ResolveFromValues(env: Env, dir: string, listing: Listing, i: nat, o: Path, paths: seq<Path>)
    requires listing.Readable? && i <= |listing.entries|
    decreases |listing.entries| - i
    ensures ResolveFrom(env, dir, listing, i, o, paths).Ok? <==>
      forall k :: i <= k < |listing.entries| ==> ResolveEntry(env, dir, listing.entries[k], o, paths).Ok?
    ensures ResolveFrom(env, dir, listing, i, o, paths).Ok? ==>
      forall k :: i <= k < |listing.entries| ==>
        ResolveFrom(env, dir, listing, i, o, paths).value[k - i] == ResolveEntry(env, dir, listing.entries[k], o, paths).value
  {
    if i < |listing.entries| {
      ResolveFromValues(env, dir, listing, i + 1, o, paths);
      var e := ResolveEntry(env, dir, listing.entries[i], o, paths);
      var rest := ResolveFrom(env, dir, listing, i + 1, o, paths);
      var r := ResolveFrom(env, dir, listing, i, o, paths);
      if e.Ok? && rest.Ok? {
        assert r == Ok([e.value] + rest.value);
        forall k | i < k < |listing.entries|
          ensures r.value[k - i] == ResolveEntry(env, dir, listing.entries[k], o, paths).value
        {
          assert r.value[k - i] == rest.value[k - (i + 1)];
        }
      } else {
        assert r.Err?;
      }
    }
  }

  /** A readable directory rejects exactly when one of its entries does:
      a stat failure or a failed nested listing rejects the whole listing. */
  lemma ListRejectsIff(env: Env, entries: seq<Entry>, o: Path, paths: seq<Path>)
    ensures List(env, Readable(entries), o, paths).Err? <==>
      exists k :: 0 <= k < |entries| && ResolveEntry(env, env.normalize(o.path), entries[k], o, paths).Err?
  {
    ResolveFromValues(env, env.normalize(o.path), Readable(entries), 0, o, paths);
  }

  /** The listing is a permutation of the non-null entry results: each
      module occurs as often as there are entries resolving to it. */
  lemma ListCounts(env: Env, entries: seq<Entry>, o: Path, paths: seq<Path>, m: Module)
    requires List(env, Readable(entries), o, paths).Ok?
    ensures multiset(List(env, Readable(entries), o, paths).value)[m]
         == multiset(Settled(env, env.normalize(o.path), entries, o, paths))[Some(m)]
  {
    var dir := env.normalize(o.path);
    ResolveFromValues(env, dir, Readable(entries), 0, o, paths);
    var results := ResolveFrom(env, dir, Readable(entries), 0, o, paths).value;
    assert results == Settled(env, dir, entries, o, paths);
    PresentCount(results, m);
  }

  /** A recursion module comes only from a declared sub-directory while
      `recursion` is on. */
  lemma RecursionOnlyIntoDeclared(env: Env, entries: seq<Entry>, o: Path, paths: seq<Path>, m: Module)
    requires List(env, Readable(entries), o, paths).Ok?
    requires m in List(env, Readable(entries), o, paths).value && m.hasRecursion
    ensures o.recursion
    ensures exists k :: (0 <= k < |entries| && entries[k].stat.DirectoryStat? &&
      FirstDeclared(env, paths, o, PathJoin(env.normalize(o.path), entries[k].name)).Some?)
  {
    var dir := env.normalize(o.path);
    ListCounts(env, entries, o, paths, m);
    var results := Settled(env, dir, entries, o, paths);
    ListRejectsIff(env, entries, o, paths);
    assert multiset(List(env, Readable(entries), o, paths).value)[m] > 0;
    assert Some(m) in results;
    var k :| 0 <= k < |entries| && results[k] == Some(m);
    assert ResolveEntry(env, dir, entries[k], o, paths) == Ok(Some(m));
  }

  /** Every entry that is not a declared sub-directory under `recursion`,
      including an undeclared directory, goes through the file filter. */
  lemma OtherEntriesAreFiles(env: Env, dir: string, e: Entry, o: Path, paths: seq<Path>)
    requires !e.stat.StatFailure?
    requires !(o.recursion && e.stat.DirectoryStat? && FirstDeclared(env, paths, o, PathJoin(dir, e.name)).Some?)
    ensures ResolveEntry(env, dir, e, o, paths) == Ok(AsFile(env, e.name, o))
  {
  }

  /** A declared sub-directory under `recursion` is listed with the options
      of the first declared path for it, and rejects when that listing does. */
  lemma DeclaredDirectoryRecurses(env: Env, dir: string, name: string, sub: Listing, o: Path, paths: seq<Path>)
    requires o.recursion && FirstDeclared(env, paths, o, PathJoin(dir, name)).Some?
    ensures var child := FirstDeclared(env, paths, o, PathJoin(dir, name)).value;
      var r := ResolveEntry(env, dir, Entry(name, DirectoryStat(sub)), o, paths);
      (r.Err? <==> List(env, sub, child, paths).Err?) &&
      (r.Ok? ==> r.value == AsDirectory(env, PathJoin(dir, name), List(env, sub, child, paths).value, child))
  {
  }

  /** A declared sub-directory that cannot be read, under `recursion`,
      ends the whole run: the nested listing throws. */
  lemma UnreadableDeclaredDirectoryCrashes(env: Env, dir: string, name: string, o: Path, paths: seq<Path>)
    requires o.recursion && FirstDeclared(env, paths, o, PathJoin(dir, name)).Some?
    ensures var child := FirstDeclared(env, paths, o, PathJoin(dir, name)).value;
      ResolveEntry(env, dir, Entry(name, DirectoryStat(Unreadable)), o, paths) == Err(Crash(env.normalize(child.path)))
  {
  }

  /** Joining one more entry that settles with `null` appends `null` to the
      joined results and keeps any rejection. */
  lemma {:induction false} ResolveFromSnocNull(env: Env, dir: string, entries: seq<Entry>, e: Entry, i: nat, o: Path, paths: seq<Path>)
    requires i <= |entries|
    requires ResolveEntry(env, dir, e, o, paths) == Ok(None)
    decreases |entries| - i
    ensures var a := ResolveFrom(env, dir, Readable(entries + [e]), i, o, paths);
      var b := ResolveFrom(env, dir, Readable(entries), i, o, paths);
      (a.Err? <==> b.Err?) && (b.Err? ==> a.error == b.error) && (b.Ok? ==> a.value == b.value + [None])
  {
    var longer := Readable(entries + [e]);
    if i == |entries| {
      assert longer.entries[i] == e;
      assert ResolveFrom(env, dir, longer, i + 1, o, paths) == Ok([]);
    } else {
      assert longer.entries[i] == entries[i];
      ResolveFromSnocNull(env, dir, entries, e, i + 1, o, paths);
    }
  }

  /** The generated index file, listed in its own directory, changes
      nothing: the listing with it is the listing without it. */
  lemma GeneratedFileNotListed(env: Env, entries: seq<Entry>, o: Path, paths: seq<Path>)
    ensures List(env, Readable(entries + [Entry(o.fileName + "." + o.fileExtension, FileStat)]), o, paths)
         == List(env, Readable(entries), o, paths)
  {
    var dir := env.normalize(o.path);
    var e := Entry(o.fileName + "." + o.fileExtension, FileStat);
    GeneratedFileIgnored(env, o);
    assert ResolveEntry(env, dir, e, o, paths) == Ok(None);
    ResolveFromSnocNull(env, dir, entries, e, 0, o, paths);
    var a := ResolveFrom(env, dir, Readable(entries + [e]), 0, o, paths);
    var b := ResolveFrom(env, dir, Readable(entries), 0, o, paths);
    if b.Ok? {
      PresentSnoc(b.value, None);
      assert Present(a.value) == Present(b.value);
    }
  }
}
