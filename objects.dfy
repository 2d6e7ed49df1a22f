/** Object utilities: `src/utils/filterKeys.ts`, `src/utils/getParamDefaults.ts`
    and `src/utils/getArgumentDefaults.ts`. */
module ObjectUtils {
  import opened Options

  /** `filterKeys(obj, ...allowed)`: a new object with the allowed keys of
      `obj` and their values. Only membership in `allowed` matters. */
  function FilterKeys(obj: Obj, allowed: set<string>): (r: Obj)
    ensures r.Keys == obj.Keys * allowed
    ensures forall k :: k in r ==> r[k] == obj[k]
  {
    map k | k in obj.Keys * allowed :: obj[k]
  }

  /** Filtering twice by the same keys is filtering once, and filtering by
      two lists in turn is filtering by their common keys. */
  lemma FilterTwice(obj: Obj, a: set<string>, b: set<string>)
    ensures FilterKeys(FilterKeys(obj, a), b) == FilterKeys(obj, a * b)
    ensures FilterKeys(FilterKeys(obj, a), a) == FilterKeys(obj, a)
  {
    assert a * a == a;
  }

  /** Nothing allowed gives `{}`; filtering never adds a key. */
  lemma FilterNothing(obj: Obj, allowed: set<string>)
    ensures FilterKeys(obj, {}) == map[]
    ensures FilterKeys(obj, allowed).Keys <= obj.Keys
  {
  }

  /** The `default` field of a table entry; a non-descriptor has none. */
  function DefaultOf(v: Value): Value {
    if v.Descriptor? then v.default else Undefined
  }

  /** The defaults object of a descriptor table. */
  function Defaults(table: Obj): (r: Obj)
    ensures r.Keys == table.Keys
    ensures forall k :: k in table ==> r[k] == DefaultOf(table[k])
  {
    map k | k in table :: DefaultOf(table[k])
  }

  /** `getParamDefaults(obj)`: one `defaults[param] = obj[param].default`
      per key of the table, into a fresh object. */
  method GetParamDefaults(table: Obj) returns (defaults: Obj)
    ensures defaults == Defaults(table)
  {
    defaults := map[];
    var rest := table.Keys;
    while rest != {}
      invariant rest <= table.Keys
      invariant defaults.Keys == table.Keys - rest
      invariant forall k :: k in defaults ==> defaults[k] == DefaultOf(table[k])
      decreases |rest|
    {
      var k :| k in rest;
      defaults := defaults[k := DefaultOf(table[k])];
      rest := rest - {k};
    }
  }

  /** `getArgumentDefaults()`: the defaults of `{...config, ...options}`,
      where the flag table of `src/args/options.ts` is a parameter. Its
      `forEach` is the one of `getParamDefaults`. */
  method GetArgumentDefaults(argOptions: Obj) returns (defaults: Obj)
    ensures defaults == Defaults(ArgumentTable + argOptions)
  {
    var args := ArgumentTable + argOptions;
    defaults := GetParamDefaults(args);
  }

  /** The argument defaults cover both tables; on a shared key the options
      table wins. */
  lemma ArgumentDefaultsMerge(argOptions: Obj)
    ensures Defaults(ArgumentTable + argOptions).Keys == ArgumentTable.Keys + argOptions.Keys
    ensures forall k :: k in argOptions ==> Defaults(ArgumentTable + argOptions)[k] == DefaultOf(argOptions[k])
    ensures forall k :: k in ArgumentTable && k !in argOptions ==>
      Defaults(ArgumentTable + argOptions)[k] == DefaultOf(ArgumentTable[k])
  {
  }

  /** With the flag table shown, `log`, `watch`, `help` and `version` default
      to `false` and `paths` to `[]`, unless the options table redefines
      them. */
  lemma ShownArgumentDefaults(argOptions: Obj)
    requires forall k :: k in argOptions ==> k !in ArgumentTable
    ensures var d := Defaults(ArgumentTable + argOptions);
      d["log"] == Bool(false) && d["watch"] == Bool(false) && d["help"] == Bool(false) &&
      d["version"] == Bool(false) && d["paths"] == Inputs([])
  {
    assert "log" in ArgumentTable && "watch" in ArgumentTable && "help" in ArgumentTable;
    assert "version" in ArgumentTable && "paths" in ArgumentTable;
  }

  /** The option defaults: both extensions `js` and the file name `index`,
      so the generated file is `index.js`. */
  lemma NameDefaults()
    ensures var d := Defaults(OptionTable);
      d["fileExtension"] == Str("js") && d["moduleExtension"] == Str("js") && d["fileName"] == Str("index")
  {
    assert OptionTable["fileExtension"].default == Str("js");
    assert OptionTable["moduleExtension"].default == Str("js");
    assert OptionTable["fileName"].default == Str("index");
  }

  /** Recursion is on, no `*InPath` flag is set and nothing is ignored. */
  lemma FlagDefaults()
    ensures var d := Defaults(OptionTable);
      d["recursion"] == Bool(true) && d["fileExtensionInPath"] == Bool(false) &&
      d["fileNameInPath"] == Bool(false) && d["moduleExtensionInPath"] == Bool(false) &&
      d["ignoreFiles"] == Strs([])
  {
    assert OptionTable["recursion"].default == Bool(true);
    assert OptionTable["fileExtensionInPath"].default == Bool(false);
    assert OptionTable["fileNameInPath"].default == Bool(false);
    assert OptionTable["moduleExtensionInPath"].default == Bool(false);
    assert OptionTable["ignoreFiles"].default == Strs([]);
  }

  /** The three default templates. */
  lemma TemplateDefaults()
    ensures var d := Defaults(OptionTable);
      d["moduleTemplate"] == Str("export { default as {name} } from '{path}';") &&
      d["recursionTemplate"] == Str("import * as {name} from '{path}';") &&
      d["recursionTemplateExport"] == Str("export { {moduleList} };")
  {
    assert OptionTable["moduleTemplate"].default == Str(DefaultModuleTemplate);
    assert OptionTable["recursionTemplate"].default == Str(DefaultRecursionTemplate);
    assert OptionTable["recursionTemplateExport"].default == Str(DefaultRecursionTemplateExport);
  }
}
