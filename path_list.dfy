/** `src/utils/getPathList.ts`: the directories named by a list of path
    entries, flattened into one list. */
module PathList {
  import opened Options

  /** What one entry adds: a string itself, an object its `path`, one
      directory or several (`concat` flattens an array). */
  function Contribution(p: PathInput): seq<string> {
    match p
    case PathString(s) => [s]
    case PathObject(One(x), _) => [x]
    case PathObject(Many(xs), _) => xs
  }

  /** `paths.map(…).reduce((arr, item) => arr.concat(item), [])`. */
  function GetPathList(paths: seq<PathInput>): (r: seq<string>)
    ensures paths == [] ==> r == []
    decreases |paths|
  {
    if paths == [] then [] else GetPathList(paths[..|paths| - 1]) + Contribution(paths[|paths| - 1])
  }

  /** The total number of directories the entries name. */
  function TotalContribution(paths: seq<PathInput>): nat
    decreases |paths|
  {
    if paths == [] then 0 else |Contribution(paths[0])| + TotalContribution(paths[1..])
  }

  /** Flattening distributes over concatenation of the entry lists. */
  lemma {:induction false} GetPathListAppend(a: seq<PathInput>, b: seq<PathInput>)
    ensures GetPathList(a + b) == GetPathList(a) + GetPathList(b)
    decreases |b|
  {
    if b == [] {
      assert a + b == a;
    } else {
      var init := b[..|b| - 1];
      GetPathListAppend(a, init);
      assert (a + b)[..|a + b| - 1] == a + init;
      assert (a + b)[|a + b| - 1] == b[|b| - 1];
    }
  }

  /** The in-order concatenation of every entry's contribution. */
  lemma {:induction false} GetPathListFromFront(paths: seq<PathInput>)
    requires paths != []
    ensures GetPathList(paths) == Contribution(paths[0]) + GetPathList(paths[1..])
  {
    GetPathListAppend([paths[0]], paths[1..]);
    assert [paths[0]] + paths[1..] == paths;
    assert GetPathList([paths[0]]) == Contribution(paths[0]) by {
      assert [paths[0]][..0] == [];
    }
  }

  /** The length is the sum of the contributions' lengths. */
  lemma {:induction false} GetPathListLength(paths: seq<PathInput>)
    ensures |GetPathList(paths)| == TotalContribution(paths)
    decreases |paths|
  {
    if paths != [] {
      GetPathListFromFront(paths);
      GetPathListLength(paths[1..]);
    }
  }

  /** An all-string input comes back element for element. */
  lemma {:induction false} AllStrings(paths: seq<PathInput>)
    requires forall i :: 0 <= i < |paths| ==> paths[i].PathString?
    ensures |GetPathList(paths)| == |paths|
    ensures forall i :: 0 <= i < |paths| ==> GetPathList(paths)[i] == paths[i].s
    decreases |paths|
  {
    if paths != [] {
      AllStrings(paths[..|paths| - 1]);
    }
  }

  /** A directory is listed exactly when some entry names it. */
  lemma {:induction false} Listed(paths: seq<PathInput>, p: string)
    ensures p in GetPathList(paths) <==> exists i :: 0 <= i < |paths| && p in Contribution(paths[i])
    decreases |paths|
  {
    if paths != [] {
      var init := paths[..|paths| - 1];
      Listed(init, p);
      if p in GetPathList(init) {
        var i :| 0 <= i < |init| && p in Contribution(init[i]);
        assert paths[i] == init[i];
      }
      if exists i :: 0 <= i < |paths| && p in Contribution(paths[i]) {
        var i :| 0 <= i < |paths| && p in Contribution(paths[i]);
        if i < |init| {
          assert init[i] == paths[i];
        }
      }
    }
  }
}
