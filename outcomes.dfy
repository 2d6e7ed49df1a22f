/** Nullable values and settled promises. A function that returns `T | null`
    in the source returns an `Option<T>` here; a promise that either resolves
    with a `T` or rejects returns a `Result<T>`. */
module Outcomes {

  datatype Option<T> = None | Some(value: T)

  /** The reason a step rejected. Each filesystem failure names the path it
      failed on; `ConfigError` stands for a failed configuration search.
      `Crash` is an exception thrown inside a filesystem callback, outside
      any promise, which Node does not catch: the process ends there. */
  datatype Error =
    | Crash(path: string)
    | StatError(path: string)
    | ReaddirError(path: string)
    | AccessError(path: string)
    | ReadError(path: string)
    | WriteError(path: string)
    | UnlinkError(path: string)
    | ConfigError(reason: string)

  datatype Result<T> = Ok(value: T) | Err(error: Error)

  /** How a callback-driven run of the older entry points ends: a promise
      resolved with a path, an error rejected or thrown, or nothing at all
      (a void callback returns, or a promise is left pending). */
  datatype Ending = Resolved(path: string) | Failed(error: Error) | Silent

  /** The ending of such a run and the files after it. */
  datatype Run = Run(ending: Ending, files: map<string, string>)

  /** The values of the `Some` entries of `xs`, in order
      (`xs.filter(x => x)` on a list of nullable objects). */
  function Present<T>(xs: seq<Option<T>>): (r: seq<T>)
    ensures |r| <= |xs|
  {
    if xs == [] then []
    else (if xs[0].Some? then [xs[0].value] else []) + Present(xs[1..])
  }

  /** A value is kept exactly when it is stored in some entry. */
  lemma {:induction false} PresentMembers<T>(xs: seq<Option<T>>, v: T)
    ensures v in Present(xs) <==> exists k :: 0 <= k < |xs| && xs[k] == Some(v)
  {
    if xs != [] {
      PresentMembers(xs[1..], v);
      if v in Present(xs[1..]) {
        var k :| 0 <= k < |xs[1..]| && xs[1..][k] == Some(v);
        assert xs[k + 1] == Some(v);
      }
      if exists k :: 0 <= k < |xs| && xs[k] == Some(v) {
        var k :| 0 <= k < |xs| && xs[k] == Some(v);
        if k > 0 {
          assert xs[1..][k - 1] == Some(v);
        }
      }
    }
  }

  /** Each value is kept as often as it is stored: dropping the empty entries
      keeps every present value with its multiplicity. */
  lemma {:induction false} PresentCount<T>(xs: seq<Option<T>>, v: T)
    ensures multiset(Present(xs))[v] == multiset(xs)[Some(v)]
  {
    if xs != [] {
      PresentCount(xs[1..], v);
      assert xs == [xs[0]] + xs[1..];
    }
  }

  /** Filtering distributes over appending one more entry. */
  lemma {:induction false} PresentSnoc<T>(xs: seq<Option<T>>, x: Option<T>)
    ensures Present(xs + [x]) == Present(xs) + (if x.Some? then [x.value] else [])
    decreases |xs|
  {
    var tail := if x.Some? then [x.value] else [];
    var ys := xs + [x];
    if xs == [] {
      assert ys == [x] && ys[1..] == [];
      assert Present(ys) == tail + Present(ys[1..]);
    } else {
      var head := if xs[0].Some? then [xs[0].value] else [];
      assert ys[0] == xs[0] && ys[1..] == xs[1..] + [x];
      PresentSnoc(xs[1..], x);
      assert Present(ys) == head + (Present(xs[1..]) + tail);
      assert Present(xs) == head + Present(xs[1..]);
    }
  }
}
