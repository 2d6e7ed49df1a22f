/** The index content of `src/contents/create.ts`, as written: the
    per-module lines are computed by a `reduce` whose result is discarded,
    the `if (dirs)` guard tests an array and is always taken, and the only
    text added to the initial contents is the recursion export line. */
module IndexContent {
  import opened Outcomes
  import opened Strings
  import opened Types
  import opened Template

  const Eol := "\r\n"

  /** The template the `reduce` picks for a module. */
  function TemplateFor(m: Module, o: Path): string {
    if m.hasRecursion then o.recursionTemplate else o.moduleTemplate
  }

  /** A module as template data: its own keys in `Object.keys` order. A
      recursion module is built with `hasRecursion` first; a plain one has no
      such key, and `true.toString()` is `"true"`. */
  function ModuleData(m: Module): (r: seq<(string, string)>)
    ensures |r| == (if m.hasRecursion then 3 else 2)
    ensures r[|r| - 2] == ("name", m.name) && r[|r| - 1] == ("path", m.path)
  {
    (if m.hasRecursion then [("hasRecursion", "true")] else []) + [("name", m.name), ("path", m.path)]
  }

  /** The discarded `reduce`: one rendered line per module, where a module
      whose template is empty resets the text to `''`. */
  function ModuleLines(str: string, modules: seq<Module>, o: Path): (r: string)
    ensures (forall k :: 0 <= k < |modules| ==> TemplateFor(modules[k], o) != "") ==> StartsWith(r, str)
    decreases |modules|
  {
    if modules == [] then str
    else
      var t := TemplateFor(modules[0], o);
      var next := if t != "" then str + Render(t, ModuleData(modules[0])) + Eol else "";
      var r := ModuleLines(next, modules[1..], o);
      assert (forall k :: 0 <= k < |modules| ==> TemplateFor(modules[k], o) != "") ==>
        StartsWith(r, next) && next[..|str|] == str;
      r
  }

  /** A module with an empty template wipes out every line before it: the
      `reduce` keeps only the lines after the last such module. */
  lemma {:induction false} ModuleLinesReset(str: string, before: seq<Module>, m: Module, after: seq<Module>, o: Path)
    requires TemplateFor(m, o) == ""
    ensures ModuleLines(str, before + [m] + after, o) == ModuleLines("", after, o)
    decreases |before|
  {
    if before == [] {
      assert before + [m] + after == [m] + after;
      assert ([m] + after)[1..] == after;
    } else {
      var t := TemplateFor(before[0], o);
      var next := if t != "" then str + Render(t, ModuleData(before[0])) + Eol else "";
      assert (before + [m] + after)[0] == before[0];
      assert (before + [m] + after)[1..] == before[1..] + [m] + after;
      ModuleLinesReset(next, before[1..], m, after, o);
    }
  }

  /** `modules.filter(m => m.hasRecursion).map(m => m.name)`. */
  function RecursionNames(modules: seq<Module>): (r: seq<string>)
    ensures |r| <= |modules|
    ensures forall n :: n in r ==> exists k :: 0 <= k < |modules| && modules[k].hasRecursion && modules[k].name == n
  {
    if modules == [] then []
    else
      var rest := RecursionNames(modules[1..]);
      assert forall k :: 1 <= k < |modules| ==> modules[k] == modules[1..][k - 1];
      (if modules[0].hasRecursion then [modules[0].name] else []) + rest
  }

  /** The names keep the order of the modules. */
  lemma {:induction false} RecursionNamesAppend(a: seq<Module>, b: seq<Module>)
    ensures RecursionNames(a + b) == RecursionNames(a) + RecursionNames(b)
    decreases |a|
  {
    if a == [] {
      assert a + b == b;
    } else {
      assert (a + b)[0] == a[0] && (a + b)[1..] == a[1..] + b;
      RecursionNamesAppend(a[1..], b);
    }
  }

  /** The line rendered for the recursion export. */
  function ExportLine(modules: seq<Module>, o: Path): string {
    Render(o.recursionTemplateExport, [("moduleList", Join(RecursionNames(modules), ", "))])
  }

  /** The default export: the initial contents, then the recursion export
      line with its CRLF when `recursionTemplateExport` is set. */
  function Create(modules: seq<Module>, o: Path, contents: string): (r: string)
    ensures StartsWith(r, contents)
    ensures o.recursionTemplateExport == "" ==> r == contents
    ensures o.recursionTemplateExport != "" ==> r == contents + ExportLine(modules, o) + Eol
  {
    var _ := ModuleLines(contents, modules, o);
    var r := if o.recursionTemplateExport != "" then contents + ExportLine(modules, o) + Eol else contents;
    assert r[..|contents|] == contents;
    r
  }

  /** The module and recursion templates do not reach the result. */
  lemma IgnoresModuleTemplates(modules: seq<Module>, o: Path, contents: string, moduleTemplate: string, recursionTemplate: string)
    ensures Create(modules, o, contents)
         == Create(modules, o.(moduleTemplate := moduleTemplate, recursionTemplate := recursionTemplate), contents)
  {
  }

  /** A plain module anywhere in the list does not change the result. */
  lemma IgnoresPlainModules(before: seq<Module>, m: Module, after: seq<Module>, o: Path, contents: string)
    requires !m.hasRecursion
    ensures Create(before + [m] + after, o, contents) == Create(before + after, o, contents)
  {
    RecursionNamesAppend(before + [m], after);
    RecursionNamesAppend(before, [m]);
    RecursionNamesAppend(before, after);
    assert RecursionNames([m]) == [] by {
      assert [m][1..] == [];
    }
    assert RecursionNames(before) + RecursionNames([m]) == RecursionNames(before);
    assert RecursionNames(before + [m] + after) == RecursionNames(before + after);
  }

  /** The export line is added even when no module recurses, with an empty
      module list. */
  lemma ExportWithoutRecursion(modules: seq<Module>, o: Path, contents: string)
    requires o.recursionTemplateExport != ""
    requires forall k :: 0 <= k < |modules| ==> !modules[k].hasRecursion
    ensures Create(modules, o, contents)
         == contents + Render(o.recursionTemplateExport, [("moduleList", "")]) + Eol
  {
    NoRecursionNoNames(modules);
  }

  lemma {:induction false} NoRecursionNoNames(modules: seq<Module>)
    requires forall k :: 0 <= k < |modules| ==> !modules[k].hasRecursion
    ensures RecursionNames(modules) == []
  {
    if modules != [] {
      NoRecursionNoNames(modules[1..]);
    }
  }
}
