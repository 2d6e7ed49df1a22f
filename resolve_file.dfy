/** The ignore filter and the file module of `src/module/resolve/asFile.ts`.
    Its patterns are built from template literals in which `\.` is cooked to
    `.`, so every dot in them is a wildcard. */
module ResolveFile {
  import opened Outcomes
  import opened Strings
  import opened Regex
  import opened Types

  /** A file name that ends with one character other than a line
      terminator followed by the module extension: the meaning of
      `\.${moduleExtension}$`. */
  predicate HasModuleExtension(file: string, moduleExtension: string) {
    |file| > |moduleExtension| && EndsWith(file, moduleExtension) &&
    !LineTerminator(file[|file| - |moduleExtension| - 1])
  }

  /** `new RegExp(`\.${moduleExtension}$`)`. */
  function ExtensionPattern(moduleExtension: string): Pattern {
    Alternatives([Shape(false, [Wildcard] + Literal(moduleExtension), true)])
  }

  /** `new RegExp(`\.(?:d|spec|test)\.${moduleExtension}`)`, unanchored. */
  function DeclarationPattern(moduleExtension: string): Pattern {
    var tail := [Wildcard] + Literal(moduleExtension);
    Alternatives([
      Shape(false, [Wildcard] + Literal("d") + tail, false),
      Shape(false, [Wildcard] + Literal("spec") + tail, false),
      Shape(false, [Wildcard] + Literal("test") + tail, false)])
  }

  /** `new RegExp(`^${fileName}\.${fileExtension}$`)`: the generated file. */
  function SelfPattern(fileName: string, fileExtension: string): Pattern {
    Alternatives([Shape(true, Literal(fileName) + [Wildcard] + Literal(fileExtension), true)])
  }

  /** An ignore entry written as a regular-expression literal `/…/`. */
  predicate IsRegexLiteral(entry: string) {
    StartsWith(entry, "/") && EndsWith(entry, "/")
  }

  /** The pattern compiled from one `ignoreFiles` entry. */
  function EntryPattern(entry: string, moduleExtension: string): Pattern {
    if IsRegexLiteral(entry) then UserPattern(Substring(entry, 1, |entry| - 1))
    else Alternatives([Shape(true, Literal(entry) + [Wildcard] + Literal(moduleExtension), true)])
  }

  /** `ignoreList`: the declaration/spec/test pattern, the generated-file
      pattern, then one pattern per ignore entry, in order. */
  function IgnoreList(o: Path): (r: seq<Pattern>)
    ensures |r| == 2 + |o.ignoreFiles|
    ensures r[0] == DeclarationPattern(o.moduleExtension)
    ensures r[1] == SelfPattern(o.fileName, o.fileExtension)
    ensures forall k :: 0 <= k < |o.ignoreFiles| ==> r[2 + k] == EntryPattern(o.ignoreFiles[k], o.moduleExtension)
  {
    [DeclarationPattern(o.moduleExtension), SelfPattern(o.fileName, o.fileExtension)] +
    seq(|o.ignoreFiles|, k requires 0 <= k < |o.ignoreFiles| => EntryPattern(o.ignoreFiles[k], o.moduleExtension))
  }

  /** `isIgnored`: some pattern of the list reports the file, where every
      pattern first reports a file that fails the extension test. */
  function IsIgnored(user: UserMatcher, file: string, regexp: seq<Pattern>, o: Path): (r: bool)
    ensures regexp == [] ==> !r
    ensures r <==> (|regexp| > 0 &&
      (!Test(user, ExtensionPattern(o.moduleExtension), file) || exists k | 0 <= k < |regexp| :: Test(user, regexp[k], file)))
  {
    assert |regexp| > 0 ==> Test(user, regexp[0], file) || !Test(user, regexp[0], file);
    exists k | 0 <= k < |regexp| ::
      !Test(user, ExtensionPattern(o.moduleExtension), file) || Test(user, regexp[k], file)
  }

  /** The default export: `null` for an ignored file, otherwise a plain module
      named after the file without `.<fileExtension>`. */
  function AsFile(env: Env, file: string, o: Path): (r: Option<Module>)
    ensures r.None? <==> IsIgnored(env.userMatch, file, IgnoreList(o), o)
    ensures r.Some? ==> !r.value.hasRecursion
    ensures r.Some? ==> r.value.name == env.name(Basename(file, "." + o.fileExtension))
    ensures r.Some? ==> r.value.path == "./" + (if o.moduleExtensionInPath then file else Basename(file, "." + o.fileExtension))
  {
    if IsIgnored(env.userMatch, file, IgnoreList(o), o) then None
    else
      var fileName := Basename(file, "." + o.fileExtension);
      Some(Module(false, env.name(fileName), "./" + (if o.moduleExtensionInPath then file else fileName)))
  }

  // ---------------------------------------------------------------------
  // What the patterns mean.

  lemma ExtensionPatternMeaning(user: UserMatcher, file: string, moduleExtension: string)
    ensures Test(user, ExtensionPattern(moduleExtension), file) <==> HasModuleExtension(file, moduleExtension)
  {
    var sh := Shape(false, [Wildcard] + Literal(moduleExtension), true);
    var i := |file| - 1 - |moduleExtension|;
    MatchesAtConcat([Wildcard], Literal(moduleExtension), file, i);
    LiteralMatchesAt(moduleExtension, file, i + 1);
    WildcardAt(file, i);
    if HasModuleExtension(file, moduleExtension) {
      assert ShapeMatches(sh, file);
      assert ExtensionPattern(moduleExtension).shapes[0] == sh;
    }
    if Test(user, ExtensionPattern(moduleExtension), file) {
      assert ShapeMatches(sh, file);
    }
  }

  /** Because the list is never empty, the extension test always applies: a
      file is ignored exactly when it lacks the module extension or some
      listed pattern matches it. */
  lemma IgnoredExactly(user: UserMatcher, file: string, o: Path)
    ensures IsIgnored(user, file, IgnoreList(o), o)
        <==> !HasModuleExtension(file, o.moduleExtension) ||
             exists k | 0 <= k < |IgnoreList(o)| :: Test(user, IgnoreList(o)[k], file)
  {
    ExtensionPatternMeaning(user, file, o.moduleExtension);
  }

  /** `.` + word + `.` + extension, with wildcard dots, starting at `i`. */
  predicate DottedAt(s: string, word: string, ext: string, i: int) {
    0 <= i && i + |word| + |ext| + 2 <= |s| && OccursAt(s, word, i + 1) && OccursAt(s, ext, i + 2 + |word|) &&
    !LineTerminator(s[i]) && !LineTerminator(s[i + 1 + |word|])
  }

  lemma DottedShape(word: string, ext: string, s: string, i: int)
    ensures MatchesAt([Wildcard] + Literal(word) + ([Wildcard] + Literal(ext)), s, i) <==> DottedAt(s, word, ext, i)
  {
    MatchesAtConcat([Wildcard] + Literal(word), [Wildcard] + Literal(ext), s, i);
    MatchesAtConcat([Wildcard], Literal(word), s, i);
    MatchesAtConcat([Wildcard], Literal(ext), s, i + 1 + |word|);
    LiteralMatchesAt(word, s, i + 1);
    LiteralMatchesAt(ext, s, i + 2 + |word|);
    WildcardAt(s, i);
    WildcardAt(s, i + 1 + |word|);
  }

  /** The declaration, spec and test pattern matches exactly the files that
      contain `d`, `spec` or `test` between two characters other than line
      terminators, followed by the module extension. */
  lemma DeclarationPatternMeaning(user: UserMatcher, file: string, moduleExtension: string)
    ensures Test(user, DeclarationPattern(moduleExtension), file) <==>
      exists i | 0 <= i <= |file| :: DottedAt(file, "d", moduleExtension, i) ||
        DottedAt(file, "spec", moduleExtension, i) || DottedAt(file, "test", moduleExtension, i)
  {
    var tail := [Wildcard] + Literal(moduleExtension);
    var p := DeclarationPattern(moduleExtension);
    assert p.shapes == [Shape(false, [Wildcard] + Literal("d") + tail, false),
      Shape(false, [Wildcard] + Literal("spec") + tail, false),
      Shape(false, [Wildcard] + Literal("test") + tail, false)];
    forall i | 0 <= i <= |file|
      ensures MatchesAt([Wildcard] + Literal("d") + tail, file, i) <==> DottedAt(file, "d", moduleExtension, i)
      ensures MatchesAt([Wildcard] + Literal("spec") + tail, file, i) <==> DottedAt(file, "spec", moduleExtension, i)
      ensures MatchesAt([Wildcard] + Literal("test") + tail, file, i) <==> DottedAt(file, "test", moduleExtension, i)
    {
      DottedShape("d", moduleExtension, file, i);
      DottedShape("spec", moduleExtension, file, i);
      DottedShape("test", moduleExtension, file, i);
    }
    if Test(user, p, file) {
      var k :| 0 <= k < |p.shapes| && ShapeMatches(p.shapes[k], file);
      var i :| 0 <= i <= |file| && MatchesAt(p.shapes[k].atoms, file, i);
      assert DottedAt(file, "d", moduleExtension, i) ||
        DottedAt(file, "spec", moduleExtension, i) || DottedAt(file, "test", moduleExtension, i);
    }
    if exists i | 0 <= i <= |file| :: DottedAt(file, "d", moduleExtension, i) ||
        DottedAt(file, "spec", moduleExtension, i) || DottedAt(file, "test", moduleExtension, i) {
      var i :| 0 <= i <= |file| && (DottedAt(file, "d", moduleExtension, i) ||
        DottedAt(file, "spec", moduleExtension, i) || DottedAt(file, "test", moduleExtension, i));
      var k := if DottedAt(file, "d", moduleExtension, i) then 0
        else if DottedAt(file, "spec", moduleExtension, i) then 1 else 2;
      assert MatchesAt(p.shapes[k].atoms, file, i);
      assert ShapeMatches(p.shapes[k], file);
    }
  }

  lemma SelfPatternMeaning(user: UserMatcher, file: string, fileName: string, fileExtension: string)
    ensures Test(user, SelfPattern(fileName, fileExtension), file)
        <==> |file| == |fileName| + 1 + |fileExtension| && StartsWith(file, fileName) && EndsWith(file, fileExtension) &&
             !LineTerminator(file[|fileName|])
  {
    SandwichShape(fileName, fileExtension, file);
    var sh := Shape(true, Literal(fileName) + [Wildcard] + Literal(fileExtension), true);
    assert SelfPattern(fileName, fileExtension).shapes[0] == sh;
  }

  /** A plain ignore entry `e` stands for exactly the name `e`, one
      character, and the module extension. */
  lemma PlainEntryMeaning(user: UserMatcher, file: string, entry: string, moduleExtension: string)
    requires !IsRegexLiteral(entry)
    ensures Test(user, EntryPattern(entry, moduleExtension), file)
        <==> |file| == |entry| + 1 + |moduleExtension| && StartsWith(file, entry) && EndsWith(file, moduleExtension) &&
             !LineTerminator(file[|entry|])
  {
    SandwichShape(entry, moduleExtension, file);
    var sh := Shape(true, Literal(entry) + [Wildcard] + Literal(moduleExtension), true);
    assert EntryPattern(entry, moduleExtension).shapes[0] == sh;
  }

  /** A `/…/` entry hands its inner text to the regular-expression engine;
      the one-character entry `/` hands over `/` itself. */
  lemma RegexEntryBody(entry: string, moduleExtension: string)
    requires IsRegexLiteral(entry)
    ensures |entry| >= 2 ==> EntryPattern(entry, moduleExtension) == UserPattern(entry[1..|entry| - 1])
    ensures |entry| == 1 ==> EntryPattern(entry, moduleExtension) == UserPattern("/")
  {
    if |entry| == 1 {
      assert Substring(entry, 1, 0) == entry[0..1];
      assert entry == "/";
    } else {
      assert Substring(entry, 1, |entry| - 1) == entry[1..|entry| - 1];
    }
  }

  /** The generated file `<fileName>.<fileExtension>` is never exported. */
  lemma GeneratedFileIgnored(env: Env, o: Path)
    ensures AsFile(env, o.fileName + "." + o.fileExtension, o).None?
  {
    var file := o.fileName + "." + o.fileExtension;
    assert StartsWith(file, o.fileName) by {
      assert file[..|o.fileName|] == o.fileName;
    }
    assert EndsWith(file, o.fileExtension) by {
      assert file[|file| - |o.fileExtension|..] == o.fileExtension;
    }
    SelfPatternMeaning(env.userMatch, file, o.fileName, o.fileExtension);
    IgnoredExactly(env.userMatch, file, o);
    assert Test(env.userMatch, IgnoreList(o)[1], file);
  }

  /** The dots are wildcards: with the module extension `js`, `card.js`
      matches `.(?:d|spec|test).js` (`r`, `d`, `.`, `js`) and is ignored. */
  lemma WildcardDotIgnoresCard(env: Env, o: Path)
    requires o.moduleExtension == "js"
    ensures AsFile(env, "card.js", o).None?
  {
    var sh := Shape(false, [Wildcard] + Literal("d") + ([Wildcard] + Literal("js")), false);
    assert MatchesAt(sh.atoms, "card.js", 2);
    assert ShapeMatches(sh, "card.js");
    assert DeclarationPattern("js").shapes[0] == sh;
    assert Test(env.userMatch, IgnoreList(o)[0], "card.js");
  }

  /** A file the filter keeps gives a plain module whose name is the
      sanitised base name. */
  lemma KeptFileModule(env: Env, stem: string, o: Path)
    requires '/' !in stem + "." + o.fileExtension && |stem| > 0
    requires !IsIgnored(env.userMatch, stem + "." + o.fileExtension, IgnoreList(o), o)
    ensures AsFile(env, stem + "." + o.fileExtension, o)
         == Some(Module(false, env.name(stem), "./" + (if o.moduleExtensionInPath then stem + "." + o.fileExtension else stem)))
  {
    assert stem + "." + o.fileExtension == stem + ("." + o.fileExtension);
    BasenameStripsExtension(stem, "." + o.fileExtension);
  }
}
