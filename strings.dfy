/** The string operations the source takes from the JavaScript runtime and
    from Node's `path` module, written out on `seq<char>`. */
module Strings {
  import opened Outcomes

  /** `p` occurs in `s` starting at index `i`. */
  predicate OccursAt(s: string, p: string, i: int) {
    0 <= i && i + |p| <= |s| && s[i..i + |p|] == p
  }

  predicate StartsWith(s: string, p: string) {
    OccursAt(s, p, 0)
  }

  predicate EndsWith(s: string, p: string) {
    |p| <= |s| && OccursAt(s, p, |s| - |p|)
  }

  /** `s.includes(p)`. */
  predicate Contains(s: string, p: string) {
    exists i | 0 <= i <= |s| - |p| :: OccursAt(s, p, i)
  }

  /** The first index at or after `from` where `p` occurs in `s`. */
  function IndexOf(s: string, p: string, from: nat): (r: Option<nat>)
    ensures r.Some? ==> from <= r.value && OccursAt(s, p, r.value)
    ensures r.Some? ==> forall j :: from <= j < r.value ==> !OccursAt(s, p, j)
    ensures r.None? ==> forall j :: from <= j ==> !OccursAt(s, p, j)
    decreases |s| - from
  {
    if from + |p| > |s| then None
    else if OccursAt(s, p, from) then Some(from)
    else IndexOf(s, p, from + 1)
  }

  /** `s.split(sep)` for a non-empty separator string: the pieces between
      successive leftmost occurrences of `sep`. */
  function Split(s: string, sep: string): (r: seq<string>)
    requires |sep| > 0
    ensures |r| >= 1
    decreases |s|
  {
    match IndexOf(s, sep, 0)
    case None => [s]
    case Some(i) => [s[..i]] + Split(s[i + |sep|..], sep)
  }

  /** `parts.join(sep)`. */
  function Join(parts: seq<string>, sep: string): string {
    if |parts| == 0 then ""
    else if |parts| == 1 then parts[0]
    else parts[0] + sep + Join(parts[1..], sep)
  }

  /** `parts.reduce((acc, part) => acc + part, '')`. */
  function Concat(parts: seq<string>): string
    decreases |parts|
  {
    if parts == [] then "" else Concat(parts[..|parts| - 1]) + parts[|parts| - 1]
  }

  /** Concatenation distributes over appending part lists. */
  lemma {:induction false} ConcatAppend(a: seq<string>, b: seq<string>)
    ensures Concat(a + b) == Concat(a) + Concat(b)
    decreases |b|
  {
    if b == [] {
      assert a + b == a;
    } else {
      var init := b[..|b| - 1];
      ConcatAppend(a, init);
      assert (a + b)[..|a + b| - 1] == a + init;
      assert (a + b)[|a + b| - 1] == b[|b| - 1];
    }
  }

  lemma ConcatSingle(x: string)
    ensures Concat([x]) == x
  {
    assert [x][..0] == [];
  }

  function Clamp(i: int, n: nat): (r: nat)
    ensures r <= n
  {
    if i < 0 then 0 else if i > n then n else i
  }

  /** `s.substring(start, end)`: both bounds are clamped to the string and
      swapped when the start lies after the end. */
  function Substring(s: string, start: int, end: int): (r: string)
    ensures |r| <= |s|
  {
    var a := Clamp(start, |s|);
    var b := Clamp(end, |s|);
    if a <= b then s[a..b] else s[b..a]
  }

  /** JavaScript's `substring` swaps bounds given in the wrong order, so
      `"/".substring(1, 0)` is `"/"`: a lone `/` is its own inner part. */
  lemma SubstringSwapsBounds()
    ensures Substring("/", 1, 0) == "/"
    ensures Substring("/abc/", 1, 4) == "abc"
  {
  }

  predicate IsAlnum(c: char) {
    'a' <= c <= 'z' || 'A' <= c <= 'Z' || '0' <= c <= '9'
  }

  /** `toUpperCase` restricted to ASCII letters and digits. */
  function ToUpper(c: char): (r: char)
    ensures IsAlnum(c) ==> IsAlnum(r)
    ensures !('a' <= c <= 'z') ==> r == c
  {
    if 'a' <= c <= 'z' then (c as int - 32) as char else c
  }

  // ---------------------------------------------------------------------
  // Node's `path` module, for plain relative paths with `/` separators.

  /** `path.join(dir, file)` without the normalisation of `.`, `..` and
      repeated separators. */
  function PathJoin(dir: string, file: string): string {
    dir + "/" + file
  }

  /** The part of `p` after its last `/`. */
  function LastSegment(p: string): (r: string)
    ensures '/' !in r
    ensures EndsWith(p, r)
  {
    if p == [] then []
    else if p[|p| - 1] == '/' then []
    else
      var r := LastSegment(p[..|p| - 1]) + [p[|p| - 1]];
      assert p[|p| - |r|..] == p[..|p| - 1][|p| - |r|..] + [p[|p| - 1]];
      r
  }

  /** `path.basename(p, ext)`: the last segment, with `ext` removed from its
      end when the segment is longer than `ext` and ends with it; Node answers
      `''` when the whole argument equals `ext`. */
  function Basename(p: string, ext: string): (r: string)
    ensures '/' !in r
  {
    if |ext| > 0 && p == ext then ""
    else
      var seg := LastSegment(p);
      if |ext| > 0 && |seg| > |ext| && EndsWith(seg, ext) then seg[..|seg| - |ext|]
      else seg
  }

  /** A directory entry's name is the last segment of its joined path. */
  lemma {:induction false} LastSegmentOfJoin(dir: string, file: string)
    requires '/' !in file
    ensures LastSegment(PathJoin(dir, file)) == file
  {
    if file != [] {
      var p := PathJoin(dir, file);
      var q := file[..|file| - 1];
      assert p[..|p| - 1] == PathJoin(dir, q);
      assert '/' !in q by {
        forall c | c in q ensures c != '/' {
          var k :| 0 <= k < |q| && q[k] == c;
          assert file[k] == c;
        }
      }
      LastSegmentOfJoin(dir, q);
      assert file == q + [file[|file| - 1]];
    } else {
      assert PathJoin(dir, file)[|PathJoin(dir, file)| - 1] == '/';
    }
  }

  /** Stripping the extension from a file name that carries it. */
  lemma BasenameStripsExtension(stem: string, ext: string)
    requires '/' !in stem + ext && |stem| > 0 && |ext| > 0
    ensures Basename(stem + ext, ext) == stem
  {
    var p := stem + ext;
    assert p != ext;
    LastSegmentOfPlain(p);
    assert p[|p| - |ext|..] == ext;
    assert p[..|p| - |ext|] == stem;
  }

  /** A name without separators is its own last segment. */
  lemma {:induction false} LastSegmentOfPlain(p: string)
    requires '/' !in p
    ensures LastSegment(p) == p
  {
    if p != [] {
      var q := p[..|p| - 1];
      assert '/' !in q by {
        forall c | c in q ensures c != '/' {
          var k :| 0 <= k < |q| && q[k] == c;
          assert p[k] == c;
        }
      }
      LastSegmentOfPlain(q);
      assert p == q + [p[|p| - 1]];
    }
  }
}
