/** The ignore filter of the older entry points, `src/index.ts`, `src/cli.ts`
    and `bin/esm-index.ts`. Their patterns are written with `\\.`, so every
    dot in them is a literal dot. Each file is tested by a `forEach` over the
    pattern list that clears a `pass` flag whenever the file lacks the
    extension or the pattern matches. */
module LegacyFilter {
  import opened Strings
  import opened Regex

  /** `new RegExp(`\\.${ext}$`)`: the file ends with `.<ext>`. */
  predicate HasExtension(file: string, ext: string) {
    EndsWith(file, "." + ext)
  }

  /** `/\.d\.ts$/`. */
  const DeclarationPattern: Pattern := Alternatives([Shape(false, Literal(".d.ts"), true)])

  /** `new RegExp(`\\.(?:spec|test)\\.${ext}`)`, unanchored. */
  function SpecTestPattern(ext: string): Pattern {
    Alternatives([Shape(false, Literal(".spec." + ext), false), Shape(false, Literal(".test." + ext), false)])
  }

  /** `^<name>\.<ext>`, anchored at the end too when `anchorEnd` is set. */
  function NamePattern(name: string, ext: string, anchorEnd: bool): Pattern {
    Alternatives([Shape(true, Literal(name + "." + ext), anchorEnd)])
  }

  /** One `ignoreFiles` entry: one starting with `/` loses its first and its
      last character and goes to the regular-expression engine; any other
      becomes a name pattern for its base name. */
  function EntryPattern(entry: string, ext: string, anchorEnd: bool): Pattern {
    if StartsWith(entry, "/") then UserPattern(Substring(entry, 1, |entry| - 1))
    else NamePattern(Basename(entry, "." + ext), ext, anchorEnd)
  }

  /** The three fixed patterns followed by one per ignore entry. */
  function Patterns(self: Pattern, ext: string, ignoreFiles: seq<string>, anchorEnd: bool): (r: seq<Pattern>)
    ensures |r| == 3 + |ignoreFiles|
    ensures r[0] == DeclarationPattern && r[1] == SpecTestPattern(ext) && r[2] == self
    ensures forall k :: 0 <= k < |ignoreFiles| ==> r[3 + k] == EntryPattern(ignoreFiles[k], ext, anchorEnd)
  {
    [DeclarationPattern, SpecTestPattern(ext), self] +
    seq(|ignoreFiles|, k requires 0 <= k < |ignoreFiles| => EntryPattern(ignoreFiles[k], ext, anchorEnd))
  }

  /** What the `forEach` leaves in `pass`: no pattern reported the file. */
  predicate Kept(user: UserMatcher, file: string, ext: string, patterns: seq<Pattern>) {
    forall k | 0 <= k < |patterns| :: HasExtension(file, ext) && !Test(user, patterns[k], file)
  }

  /** The `forEach` itself. */
  method Passes(user: UserMatcher, file: string, ext: string, patterns: seq<Pattern>) returns (pass: bool)
    ensures pass == Kept(user, file, ext, patterns)
  {
    pass := true;
    for k := 0 to |patterns|
      invariant pass == Kept(user, file, ext, patterns[..k])
    {
      assert forall j | 0 <= j < k :: patterns[..k + 1][j] == patterns[..k][j];
      assert patterns[..k + 1][k] == patterns[k];
      if !EndsWith(file, "." + ext) || Test(user, patterns[k], file) {
        if pass {
          pass := false;
        }
      }
    }
    assert patterns[..|patterns|] == patterns;
  }

  /** With a non-empty list, a file is kept exactly when it has the
      extension and no pattern matches it. */
  lemma KeptExactly(user: UserMatcher, file: string, ext: string, patterns: seq<Pattern>)
    requires |patterns| > 0
    ensures Kept(user, file, ext, patterns)
        <==> HasExtension(file, ext) && forall k | 0 <= k < |patterns| :: !Test(user, patterns[k], file)
  {
    if Kept(user, file, ext, patterns) {
      assert HasExtension(file, ext) && !Test(user, patterns[0], file);
    }
  }

  // ---------------------------------------------------------------------
  // What the fixed patterns mean.

  lemma DeclarationMeaning(user: UserMatcher, file: string)
    ensures Test(user, DeclarationPattern, file) <==> EndsWith(file, ".d.ts")
  {
    EndShape(".d.ts", file);
    assert DeclarationPattern.shapes[0] == Shape(false, Literal(".d.ts"), true);
  }

  lemma SpecTestMeaning(user: UserMatcher, file: string, ext: string)
    ensures Test(user, SpecTestPattern(ext), file) <==> Contains(file, ".spec." + ext) || Contains(file, ".test." + ext)
  {
    var p := SpecTestPattern(ext);
    ContainsShape(".spec." + ext, file);
    ContainsShape(".test." + ext, file);
    assert p.shapes[0] == Shape(false, Literal(".spec." + ext), false);
    assert p.shapes[1] == Shape(false, Literal(".test." + ext), false);
  }

  /** Unanchored at the end, a name pattern is a prefix test; anchored, it
      is equality. */
  lemma NameMeaning(user: UserMatcher, file: string, name: string, ext: string)
    ensures Test(user, NamePattern(name, ext, false), file) <==> StartsWith(file, name + "." + ext)
    ensures Test(user, NamePattern(name, ext, true), file) <==> file == name + "." + ext
  {
    StartShape(name + "." + ext, file);
    WholeShape(name + "." + ext, file);
    assert NamePattern(name, ext, false).shapes[0] == Shape(true, Literal(name + "." + ext), false);
    assert NamePattern(name, ext, true).shapes[0] == Shape(true, Literal(name + "." + ext), true);
  }

  /** A file some fixed pattern reports is dropped. */
  lemma FixedRejections(user: UserMatcher, file: string, self: Pattern, ext: string, ignoreFiles: seq<string>, anchorEnd: bool)
    requires !HasExtension(file, ext) || EndsWith(file, ".d.ts") || Contains(file, ".spec." + ext) ||
             Contains(file, ".test." + ext) || Test(user, self, file)
    ensures !Kept(user, file, ext, Patterns(self, ext, ignoreFiles, anchorEnd))
  {
    var ps := Patterns(self, ext, ignoreFiles, anchorEnd);
    DeclarationMeaning(user, file);
    SpecTestMeaning(user, file, ext);
    KeptExactly(user, file, ext, ps);
    if HasExtension(file, ext) {
      if EndsWith(file, ".d.ts") {
        assert Test(user, ps[0], file);
      } else if Contains(file, ".spec." + ext) || Contains(file, ".test." + ext) {
        assert Test(user, ps[1], file);
      } else {
        assert Test(user, ps[2], file);
      }
    }
  }

  /** A `/…/` entry hands its inner text to the engine (a lone `/` hands
      over `/`, since `substring(1, 0)` swaps its bounds); note that only the
      leading `/` is checked. */
  lemma SlashEntryBody(entry: string, ext: string, anchorEnd: bool)
    requires StartsWith(entry, "/")
    ensures |entry| >= 2 ==> EntryPattern(entry, ext, anchorEnd) == UserPattern(entry[1..|entry| - 1])
    ensures |entry| == 1 ==> EntryPattern(entry, ext, anchorEnd) == UserPattern("/")
  {
    if |entry| == 1 {
      assert Substring(entry, 1, 0) == entry[0..1];
      assert entry == "/";
    } else {
      assert Substring(entry, 1, |entry| - 1) == entry[1..|entry| - 1];
    }
  }
}
