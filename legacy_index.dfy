/** The first generation, `src/index.ts`: the module resolution of the
    `ResolveModule` namespace, the module name sanitiser `asName`, the index
    text `createContents`, the sort and filter of `getModules` and the
    decision of `createFile`. The glob search for nested configuration files
    and `JSON.parse` of them are not modelled: for a sub-directory, what the
    search found is part of its entry. */
module LegacyIndex {
  import opened Outcomes
  import opened Strings
  import opened Regex
  import opened LegacyFilter
  import opened LegacyHash
  import opened Ordering
  import opened FileActions

  datatype Module = Module(isIndex: bool, name: string)

  /** The options of a configuration file; an absent `ignoreFiles` is `[]`. */
  datatype Options = Options(fileExtension: string, fileName: string, ignoreFiles: seq<string>, recursiveSearch: bool)

  function IsIndex(m: Module): bool { m.isIndex }
  function NameOf(m: Module): string { m.name }

  // ---------------------------------------------------------------------
  // asName

  /** `replace(/^[^a-zA-Z0-9]+/, '')`. */
  function TrimStart(s: string): (r: string)
    ensures |r| <= |s| && r == s[|s| - |r|..]
    ensures r == [] || IsAlnum(r[0])
    ensures forall k :: 0 <= k < |s| - |r| ==> !IsAlnum(s[k])
    decreases |s|
  {
    if s == [] || IsAlnum(s[0]) then s else TrimStart(s[1..])
  }

  /** `replace(/[^a-zA-Z0-9]+$/, '')`. */
  function TrimEnd(s: string): (r: string)
    ensures |r| <= |s| && r == s[..|r|]
    ensures r == [] || IsAlnum(r[|r| - 1])
    ensures forall k :: |r| <= k < |s| ==> !IsAlnum(s[k])
    decreases |s|
  {
    if s == [] || IsAlnum(s[|s| - 1]) then s else TrimEnd(s[..|s| - 1])
  }

  /** `replace(/[^a-zA-Z0-9]+([a-zA-Z0-9])/g, upper)`: each run of other
      characters followed by a letter or digit becomes that character in
      upper case; a final run with nothing after it stays. */
  function Camel(s: string): (r: string)
    decreases |s|
  {
    if s == [] then []
    else if IsAlnum(s[0]) then [s[0]] + Camel(s[1..])
    else
      var rest := TrimStart(s);
      if rest == [] then s else [ToUpper(rest[0])] + Camel(rest[1..])
  }

  /** `ResolveModule.asName(module)`. */
  function AsName(name: string): string {
    Camel(TrimEnd(TrimStart(name)))
  }

  predicate AllAlnum(s: string) {
    forall k :: 0 <= k < |s| ==> IsAlnum(s[k])
  }

  /** Camel-casing never lengthens a text, and empties only the empty one. */
  lemma {:induction false} CamelLength(s: string)
    ensures |Camel(s)| <= |s|
    ensures Camel(s) == [] <==> s == []
    decreases |s|
  {
    if s != [] {
      if IsAlnum(s[0]) {
        CamelLength(s[1..]);
      } else {
        var rest := TrimStart(s);
        if rest != [] {
          CamelLength(rest[1..]);
        }
      }
    }
  }

  /** The sanitised name is never longer than the name, and it is `''`
      exactly when the name holds no letter or digit. */
  lemma AsNameLength(name: string)
    ensures |AsName(name)| <= |name|
    ensures AsName(name) == [] <==> NoAlnum(name)
  {
    var trimmed := TrimStart(name);
    CamelLength(TrimEnd(trimmed));
    if trimmed != [] {
      assert IsAlnum(name[|name| - |trimmed|]);
      assert TrimEnd(trimmed) != [];
    }
  }

  lemma {:induction false} CamelAlnum(s: string)
    requires s == [] || IsAlnum(s[|s| - 1])
    ensures AllAlnum(Camel(s))
    decreases |s|
  {
    if s != [] {
      if IsAlnum(s[0]) {
        CamelAlnum(s[1..]);
      } else {
        var rest := TrimStart(s);
        assert rest != [];
        assert rest[|rest| - 1] == s[|s| - 1];
        CamelAlnum(rest[1..]);
      }
    }
  }

  /** The sanitised name holds only ASCII letters and digits. */
  lemma AsNameAlnum(name: string)
    ensures AllAlnum(AsName(name))
  {
    CamelAlnum(TrimEnd(TrimStart(name)));
  }

  lemma {:induction false} CamelKeepsAlnum(s: string)
    requires AllAlnum(s)
    ensures Camel(s) == s
    decreases |s|
  {
    if s != [] {
      CamelKeepsAlnum(s[1..]);
    }
  }

  /** A name of letters and digits is left as it is. */
  lemma AsNameKeepsAlnum(name: string)
    requires AllAlnum(name)
    ensures AsName(name) == name
  {
    CamelKeepsAlnum(name);
  }

  /** Sanitising twice is sanitising once. */
  lemma AsNameIdempotent(name: string)
    ensures AsName(AsName(name)) == AsName(name)
  {
    AsNameAlnum(name);
    AsNameKeepsAlnum(AsName(name));
  }

  predicate NoAlnum(s: string) {
    forall k :: 0 <= k < |s| ==> !IsAlnum(s[k])
  }

  lemma {:induction false} TrimStartSkips(pre: string, w: string)
    requires NoAlnum(pre) && (w == [] || IsAlnum(w[0]))
    ensures TrimStart(pre + w) == w
    decreases |pre|
  {
    if pre == [] {
      assert pre + w == w;
    } else {
      assert (pre + w)[1..] == pre[1..] + w;
      TrimStartSkips(pre[1..], w);
    }
  }

  lemma {:induction false} TrimEndSkips(w: string, post: string)
    requires NoAlnum(post) && (w == [] || IsAlnum(w[|w| - 1]))
    ensures TrimEnd(w + post) == w
    decreases |post|
  {
    if post == [] {
      assert w + post == w;
    } else {
      var init := post[..|post| - 1];
      assert (w + post)[..|w + post| - 1] == w + init;
      TrimEndSkips(w, init);
    }
  }

  lemma CamelAlnumHead(c: char, s: string)
    requires IsAlnum(c)
    ensures Camel([c] + s) == [c] + Camel(s)
  {
    assert ([c] + s)[0] == c;
    assert ([c] + s)[1..] == s;
  }

  /** One letter or digit at index `i` passes through. */
  lemma CamelAlnumAt(s: string, i: nat)
    requires i < |s| && IsAlnum(s[i])
    ensures Camel(s[i..]) == [s[i]] + Camel(s[i + 1..])
  {
    assert s[i..][0] == s[i];
    assert s[i..][1..] == s[i + 1..];
  }

  lemma SliceCons(s: string, i: nat, n: nat, tail: string)
    requires i < n <= |s|
    ensures [s[i]] + (s[i + 1..n] + tail) == s[i..n] + tail
  {
    assert s[i..n] == [s[i]] + s[i + 1..n];
  }

  /** A run of letters and digits from index `i` to `n` passes through. */
  lemma {:induction false} CamelAlnumRun(s: string, i: nat, n: nat)
    requires i <= n <= |s|
    requires forall k :: i <= k < n ==> IsAlnum(s[k])
    ensures Camel(s[i..]) == s[i..n] + Camel(s[n..])
    decreases n - i
  {
    if i < n {
      CamelAlnumRun(s, i + 1, n);
      CamelAlnumAt(s, i);
      SliceCons(s, i, n, Camel(s[n..]));
    } else {
      assert s[i..n] == [];
    }
  }

  lemma CamelAlnumPrefix(u: string, rest: string)
    requires AllAlnum(u)
    ensures Camel(u + rest) == u + Camel(rest)
  {
    var s := u + rest;
    assert forall k :: 0 <= k < |u| ==> s[k] == u[k];
    CamelAlnumRun(s, 0, |u|);
    assert s[0..] == s && s[0..|u|] == u && s[|u|..] == rest;
  }

  /** Symbols around a name are dropped, so a name of symbols alone
      becomes `''`. */
  lemma AsNameStripsSymbols(pre: string, w: string, post: string)
    requires NoAlnum(pre) && NoAlnum(post)
    requires w == [] || (IsAlnum(w[0]) && IsAlnum(w[|w| - 1]))
    ensures AsName(pre + w + post) == AsName(w)
    ensures w == [] ==> AsName(pre + post) == ""
  {
    if w == [] {
      assert pre + w + post == pre + post + [];
      assert NoAlnum(pre + post) by {
        forall k | 0 <= k < |pre + post| ensures !IsAlnum((pre + post)[k]) {
          if k < |pre| { assert (pre + post)[k] == pre[k]; } else { assert (pre + post)[k] == post[k - |pre|]; }
        }
      }
      calc {
        AsName(pre + post);
      == { TrimStartSkips(pre + post, []); assert pre + post + [] == pre + post; }
        Camel(TrimEnd([]));
      ==
        "";
      }
    } else {
      assert pre + w + post == pre + (w + post);
      assert (w + post)[0] == w[0];
      calc {
        AsName(pre + (w + post));
      == { TrimStartSkips(pre, w + post); }
        Camel(TrimEnd(w + post));
      == { TrimEndSkips(w, post); }
        Camel(w);
      == { AsNameOfWord(w); }
        AsName(w);
      }
    }
  }

  /** Two words joined by symbols become one word with the second
      capitalised (`my-module` gives `myModule`); digits count as letters
      (`1-my module!!` gives `1MyModule`). */
  lemma AsNameJoinsWords(u: string, sep: string, v: string)
    requires AllAlnum(u) && AllAlnum(v) && |u| > 0 && |v| > 0
    requires NoAlnum(sep) && |sep| > 0
    ensures AsName(u + sep + v) == u + [ToUpper(v[0])] + v[1..]
  {
    var s := u + (sep + v);
    assert u + sep + v == s;
    assert s[0] == u[0] && IsAlnum(u[0]);
    assert s[|s| - 1] == v[|v| - 1] && IsAlnum(v[|v| - 1]);
    calc {
      AsName(s);
    == { AsNameOfWord(s); }
      Camel(s);
    == { CamelAlnumPrefix(u, sep + v); }
      u + Camel(sep + v);
    == { CamelSkipsSymbols(sep, v); }
      u + ([ToUpper(v[0])] + v[1..]);
    }
  }

  /** A name that starts and ends with a letter or digit is only camel-cased. */
  lemma AsNameOfWord(s: string)
    requires |s| > 0 && IsAlnum(s[0]) && IsAlnum(s[|s| - 1])
    ensures AsName(s) == Camel(s)
  {
    assert TrimStart(s) == s;
    assert TrimEnd(s) == s;
  }

  lemma CamelSkipsSymbols(sep: string, v: string)
    requires AllAlnum(v) && |v| > 0 && NoAlnum(sep) && |sep| > 0
    ensures Camel(sep + v) == [ToUpper(v[0])] + v[1..]
  {
    TrimStartSkips(sep, v);
    assert (sep + v)[0] == sep[0];
    CamelKeepsAlnum(v[1..]);
  }

  // ---------------------------------------------------------------------
  // asFile

  /** The ignore list: `.d.ts`, spec and test files, names starting with
      the index file name, then the ignore entries, unanchored at the end. */
  function IgnorePatterns(o: Options): seq<Pattern> {
    Patterns(NamePattern(o.fileName, o.fileExtension, false), o.fileExtension, o.ignoreFiles, false)
  }

  /** What `asFile` resolves with. */
  function FileModule(user: UserMatcher, file: string, o: Options): (r: Option<Module>)
    ensures r.None? <==> !Kept(user, file, o.fileExtension, IgnorePatterns(o))
    ensures r.Some? ==> r.value == Module(false, Basename(file, "." + o.fileExtension))
  {
    if Kept(user, file, o.fileExtension, IgnorePatterns(o)) then Some(Module(false, Basename(file, "." + o.fileExtension)))
    else None
  }

  /** `ResolveModule.asFile(file, options)`. */
  method AsFile(user: UserMatcher, file: string, o: Options) returns (r: Option<Module>)
    ensures r == FileModule(user, file, o)
  {
    var pass := Passes(user, file, o.fileExtension, IgnorePatterns(o));
    if pass {
      r := Some(Module(false, Basename(file, "." + o.fileExtension)));
    } else {
      r := None;
    }
  }

  /** A file without the extension, a name starting with the index file's
      name, a spec or test file and a declaration file are all dropped. */
  lemma AsFileRejects(user: UserMatcher, file: string, o: Options)
    requires !HasExtension(file, o.fileExtension) || StartsWith(file, o.fileName + "." + o.fileExtension) ||
             Contains(file, ".spec." + o.fileExtension) || Contains(file, ".test." + o.fileExtension) ||
             EndsWith(file, ".d.ts")
    ensures FileModule(user, file, o).None?
  {
    NameMeaning(user, file, o.fileName, o.fileExtension);
    FixedRejections(user, file, NamePattern(o.fileName, o.fileExtension, false), o.fileExtension, o.ignoreFiles, false);
  }

  /** A plain ignore entry drops every file with the extension whose name
      starts with the entry's base name, a dot and the extension. */
  lemma PlainEntryIsPrefix(user: UserMatcher, file: string, o: Options, k: nat)
    requires k < |o.ignoreFiles| && !StartsWith(o.ignoreFiles[k], "/")
    requires HasExtension(file, o.fileExtension)
    requires StartsWith(file, Basename(o.ignoreFiles[k], "." + o.fileExtension) + "." + o.fileExtension)
    ensures FileModule(user, file, o).None?
  {
    var base := Basename(o.ignoreFiles[k], "." + o.fileExtension);
    NameMeaning(user, file, base, o.fileExtension);
    assert Test(user, IgnorePatterns(o)[3 + k], file);
  }

  /** Conversely, a file with the extension that no fixed pattern and no
      ignore entry reports is exported under its base name. */
  lemma AsFileKeeps(user: UserMatcher, file: string, o: Options)
    requires HasExtension(file, o.fileExtension) && !StartsWith(file, o.fileName + "." + o.fileExtension)
    requires !Contains(file, ".spec." + o.fileExtension) && !Contains(file, ".test." + o.fileExtension)
    requires !EndsWith(file, ".d.ts")
    requires forall k :: 0 <= k < |o.ignoreFiles| ==> !Test(user, EntryPattern(o.ignoreFiles[k], o.fileExtension, false), file)
    ensures FileModule(user, file, o) == Some(Module(false, Basename(file, "." + o.fileExtension)))
  {
    var ps := IgnorePatterns(o);
    DeclarationMeaning(user, file);
    SpecTestMeaning(user, file, o.fileExtension);
    NameMeaning(user, file, o.fileName, o.fileExtension);
    forall k | 0 <= k < |ps| ensures HasExtension(file, o.fileExtension) && !Test(user, ps[k], file) {
      if k >= 3 {
        assert ps[k] == EntryPattern(o.ignoreFiles[k - 3], o.fileExtension, false);
      }
    }
  }

  /** `card.js` has the extension and is not the index file. */
  lemma CardHasExtension()
    ensures HasExtension("card.js", "js") && !StartsWith("card.js", "index" + "." + "js")
  {
    assert "card.js"[4..7] == ".js";
    assert ("index" + "." + "js")[0] == 'i';
  }

  /** `card.js` is neither a spec, test nor declaration file. */
  lemma CardIsNotSpecial()
    ensures !Contains("card.js", ".spec." + "js") && !Contains("card.js", ".test." + "js") && !EndsWith("card.js", ".d.ts")
  {
    assert |".spec." + "js"| == 8 && |".test." + "js"| == 8;
    assert "card.js"[2..7][0] == 'r';
  }

  lemma CardBasename()
    ensures Basename("card.js", "." + "js") == "card"
  {
    assert "card" + ("." + "js") == "card.js";
    BasenameStripsExtension("card", "." + "js");
  }

  /** Here the dots are literal: with the defaults, `card.js` is exported as
      `card`. */
  lemma LiteralDotKeepsCard(user: UserMatcher, file: string, o: Options)
    requires file == "card.js"
    requires o.fileExtension == "js" && o.fileName == "index" && o.ignoreFiles == []
    ensures FileModule(user, file, o) == Some(Module(false, "card"))
  {
    CardHasExtension();
    CardIsNotSpecial();
    CardBasename();
    AsFileKeeps(user, file, o);
  }


  // ---------------------------------------------------------------------
  // asDirectory and getModules

  /** What the glob search found in a sub-directory: the options of its own
      configuration file, and whether the module list of that directory is
      non-empty. */
  datatype Nested = Nested(options: Options, hasModules: bool)

  /** A directory entry as `fs.readdir` names it and `fs.stat` classifies it. */
  datatype Entry = FileEntry(name: string) | DirectoryEntry(name: string, nested: Option<Nested>)

  /** `ResolveModule.asDirectory(root, file, options)`. */
  function DirectoryModule(name: string, nested: Option<Nested>, o: Options): (r: Option<Module>)
    ensures !o.recursiveSearch || nested.None? ==> r.None?
    ensures r.Some? <==> o.recursiveSearch && nested.Some? && nested.value.hasModules
    ensures r.Some? ==> r.value == Module(true, Basename(name, "." + nested.value.options.fileExtension))
  {
    if !o.recursiveSearch then None
    else match nested
      case None => None
      case Some(n) => if n.hasModules then Some(Module(true, Basename(name, "." + n.options.fileExtension))) else None
  }

  function EntryModule(user: UserMatcher, e: Entry, o: Options): Option<Module> {
    match e
    case FileEntry(name) => FileModule(user, name, o)
    case DirectoryEntry(name, nested) => DirectoryModule(name, nested, o)
  }

  function EntryResults(user: UserMatcher, entries: seq<Entry>, o: Options): seq<Option<Module>> {
    seq(|entries|, i requires 0 <= i < |entries| => EntryModule(user, entries[i], o))
  }

  /** The modules `getModules` resolves with: the non-null results, index
      modules first, then the others by ascending name. */
  function GetModules(user: UserMatcher, entries: seq<Entry>, o: Options): (r: seq<Module>)
    ensures Canonical(IsIndex, NameOf, r)
    ensures multiset(r) == multiset(Present(EntryResults(user, entries, o)))
  {
    Sort(IsIndex, NameOf, Present(EntryResults(user, entries, o)))
  }

  /** Each module is listed as often as some entry resolves to it. */
  lemma GetModulesCounts(user: UserMatcher, entries: seq<Entry>, o: Options, m: Module)
    ensures multiset(GetModules(user, entries, o))[m] == multiset(EntryResults(user, entries, o))[Some(m)]
  {
    PresentCount(EntryResults(user, entries, o), m);
  }

  /** Without `recursiveSearch` no module is an index module. */
  lemma NoRecursiveSearchNoIndex(user: UserMatcher, entries: seq<Entry>, o: Options, m: Module)
    requires !o.recursiveSearch && m in GetModules(user, entries, o)
    ensures !m.isIndex
  {
    var xs := EntryResults(user, entries, o);
    assert m in multiset(GetModules(user, entries, o));
    assert m in multiset(Present(xs));
    PresentMembers(xs, m);
    var k :| 0 <= k < |xs| && xs[k] == Some(m);
    assert EntryModule(user, entries[k], o) == Some(m);
    if entries[k].FileEntry? {
      assert FileModule(user, entries[k].name, o) == Some(m);
    }
  }

  // ---------------------------------------------------------------------
  // createContents

  function ModuleLine(m: Module): string {
    if m.isIndex then "import * as " + AsName(m.name) + " from './" + m.name + "';\r\n"
    else "export { default as " + AsName(m.name) + " } from './" + m.name + "';\r\n"
  }

  /** The `reduce`: one line per module, in list order. */
  function Lines(modules: seq<Module>): string {
    Concat(seq(|modules|, i requires 0 <= i < |modules| => ModuleLine(modules[i])))
  }

  /** The sanitised names of the index modules, in list order. */
  function IndexNames(modules: seq<Module>): (r: seq<string>)
    ensures r == [] <==> forall i :: 0 <= i < |modules| ==> !modules[i].isIndex
    decreases |modules|
  {
    if modules == [] then []
    else
      var init := modules[..|modules| - 1];
      var last := modules[|modules| - 1];
      assert forall i :: 0 <= i < |init| ==> init[i] == modules[i];
      IndexNames(init) + (if last.isIndex then [AsName(last.name)] else [])
  }

  /** `createContents(modules)`. */
  function CreateContents(modules: seq<Module>): (r: string)
    ensures modules == [] ==> r == ""
    ensures StartsWith(r, Lines(modules))
    ensures (exists i :: 0 <= i < |modules| && modules[i].isIndex) ==>
      r == Lines(modules) + "export { " + Join(IndexNames(modules), ", ") + " };\r\n"
    ensures (forall i :: 0 <= i < |modules| ==> !modules[i].isIndex) ==> r == Lines(modules)
  {
    if |modules| == 0 then ""
    else
      var index := IndexNames(modules);
      var src := Lines(modules);
      var r := if |index| > 0 then src + "export { " + Join(index, ", ") + " };\r\n" else src;
      assert r[..|src|] == src;
      r
  }

  /** The lines of two lists are the lines of each, one after the other. */
  lemma LinesAppend(a: seq<Module>, b: seq<Module>)
    ensures Lines(a + b) == Lines(a) + Lines(b)
  {
    var la := seq(|a|, i requires 0 <= i < |a| => ModuleLine(a[i]));
    var lb := seq(|b|, i requires 0 <= i < |b| => ModuleLine(b[i]));
    assert seq(|a + b|, i requires 0 <= i < |a + b| => ModuleLine((a + b)[i])) == la + lb;
    ConcatAppend(la, lb);
  }

  /** A single plain module gives its export line and nothing more. */
  lemma SinglePlainContents(name: string)
    ensures CreateContents([Module(false, name)]) == "export { default as " + AsName(name) + " } from './" + name + "';\r\n"
  {
    var ms := [Module(false, name)];
    assert seq(|ms|, i requires 0 <= i < |ms| => ModuleLine(ms[i])) == [ModuleLine(ms[0])];
    ConcatSingle(ModuleLine(ms[0]));
    assert Lines(ms) == ModuleLine(ms[0]);
    assert ms[..0] == [];
    assert IndexNames(ms) == [];
  }

  /** A single index module gives its import line and the export of its
      name. */
  lemma SingleIndexContents(name: string)
    ensures CreateContents([Module(true, name)]) ==
      ("import * as " + AsName(name) + " from './" + name + "';\r\n") + "export { " + AsName(name) + " };\r\n"
  {
    var ms := [Module(true, name)];
    assert seq(|ms|, i requires 0 <= i < |ms| => ModuleLine(ms[i])) == [ModuleLine(ms[0])];
    ConcatSingle(ModuleLine(ms[0]));
    assert Lines(ms) == ModuleLine(ms[0]);
    assert ms[..0] == [];
    assert IndexNames(ms) == [AsName(name)];
    assert Join([AsName(name)], ", ") == AsName(name);
    assert ms[0].isIndex;
  }

  // ---------------------------------------------------------------------
  // createFile

  /** The index file of a configuration file in directory `dir`. */
  function IndexPath(dir: string, o: Options): string {
    PathJoin(dir, o.fileName + "." + o.fileExtension)
  }

  /** What `createFile` does once the modules are known: with modules, an
      unreadable index is written, and a readable one is rewritten unless
      `compareContents` finds it equal, in which case the promise never
      settles; without modules an existing index is unlinked, and the promise
      never settles either way. */
  function CreateFileStep(md5: string -> string, faults: Faults, files: map<string, string>,
                          index: string, modules: seq<Module>): (r: Run)
    ensures r.ending.Failed? ==> r.files == files
    ensures r.ending.Resolved? ==> r.ending.path == index && r.files == files[index := CreateContents(modules)]
    ensures r.ending.Failed? ==> index in faults.unwritable || index in faults.undeletable
    ensures |modules| > 0 && (!CanRead(faults, files, index) || !AllSame(md5, [CreateContents(modules), files[index]])) ==>
      r == (if index in faults.unwritable then Run(Failed(WriteError(index)), files)
            else Run(Resolved(index), files[index := CreateContents(modules)]))
    ensures |modules| > 0 && CanRead(faults, files, index) && AllSame(md5, [CreateContents(modules), files[index]]) ==>
      r == Run(Silent, files)
    ensures |modules| == 0 && index in files ==>
      r == (if index in faults.undeletable then Run(Failed(UnlinkError(index)), files) else Run(Silent, files - {index}))
    ensures |modules| == 0 && index !in files ==> r == Run(Silent, files)
    ensures r.files.Keys <= files.Keys + {index}
  {
    var contents := CreateContents(modules);
    if |modules| > 0 then
      if !CanRead(faults, files, index) || !AllSame(md5, [contents, files[index]]) then
        if index in faults.unwritable then Run(Failed(WriteError(index)), files)
        else Run(Resolved(index), files[index := contents])
      else Run(Silent, files)
    else if index in files then
      if index in faults.undeletable then Run(Failed(UnlinkError(index)), files)
      else Run(Silent, files - {index})
    else Run(Silent, files)
  }

  /** `createFile(rc, options)` for the modules `getModules` resolved with.
      A read right after a successful `access(index, R_OK)` succeeds. */
  method CreateFile(md5: string -> string, fs: FileSystem, dir: string, o: Options, modules: seq<Module>)
    returns (ending: Ending)
    modifies fs
    ensures Run(ending, fs.files) == CreateFileStep(md5, fs.faults, old(fs.files), IndexPath(dir, o), modules)
  {
    var index := IndexPath(dir, o);
    var contents := CreateContents(modules);
    if |modules| > 0 {
      var readable := fs.AccessReadable(index);
      var write := true;
      if readable {
        var data := fs.ReadFile(index);
        assert data.Ok?;
        var same := CompareContents(md5, [contents, data.value]);
        write := !same;
      }
      if write {
        var ok := fs.WriteFile(index, contents);
        ending := if ok then Resolved(index) else Failed(WriteError(index));
      } else {
        ending := Silent;
      }
    } else {
      var present := fs.Access(index);
      if present {
        var ok := fs.Unlink(index);
        ending := if ok then Silent else Failed(UnlinkError(index));
      } else {
        ending := Silent;
      }
    }
  }

  /** Run again on the files it wrote, `createFile` finds the index equal and
      writes nothing. */
  lemma SecondRunWritesNothing(md5: string -> string, faults: Faults, files: map<string, string>,
                               index: string, modules: seq<Module>)
    requires CreateFileStep(md5, faults, files, index, modules).ending.Resolved? && index !in faults.unreadable
    ensures var first := CreateFileStep(md5, faults, files, index, modules);
      CreateFileStep(md5, faults, first.files, index, modules) == Run(Silent, first.files)
  {
  }

  /** With modules and a writable index, the index ends up holding the
      contents: it is written unless its digest already matches. */
  lemma IndexHoldsContents(md5: string -> string, faults: Faults, files: map<string, string>,
                           index: string, modules: seq<Module>)
    requires |modules| > 0 && index !in faults.unwritable
    ensures var r := CreateFileStep(md5, faults, files, index, modules);
      index in r.files &&
      (r.ending == Resolved(index) ==> r.files[index] == CreateContents(modules)) &&
      (r.ending == Silent ==> GetHash(md5, r.files[index]) == GetHash(md5, CreateContents(modules)))
  {
    var r := CreateFileStep(md5, faults, files, index, modules);
    if r.ending == Silent {
      assert [CreateContents(modules), files[index]][1] == files[index];
    }
  }
}
