/** Configuration objects and the option tables of `src/params/options.ts`,
    `src/params/config.ts` and `src/args/config.ts`. A JavaScript object is a
    map from key to value: `Object.assign({}, a, b)` is the map union
    `a + b`, whose right operand wins, and key order is not modelled. */
module Options {

  /** The values the configuration layer handles. `Undefined` is what reading
      a missing field gives. */
  datatype Value =
    | Undefined
    | Bool(b: bool)
    | Str(s: string)
    | Strs(items: seq<string>)
    | Inputs(inputs: seq<PathInput>)
    | Records(records: seq<map<string, Value>>)
    | Descriptor(alias: string, default: Value, describe: string, kind: string)

  /** The `path` of a path entry: one directory or several. */
  datatype PathField = One(path: string) | Many(paths: seq<string>)

  /** An entry of `paths`: a bare directory, or an object with a `path` and
      its own options. */
  datatype PathInput =
    | PathString(s: string)
    | PathObject(path: PathField, options: map<string, Value>)

  type Obj = map<string, Value>

  /** The value a `path` field holds. */
  function FieldValue(f: PathField): Value {
    match f
    case One(p) => Str(p)
    case Many(ps) => Strs(ps)
  }

  /** The entry as an object: a string `s` counts as `{path: s}`. */
  function AsObject(p: PathInput): (r: Obj)
    ensures "path" in r
    ensures p.PathString? ==> r == map["path" := Str(p.s)]
    ensures p.PathObject? ==> (r["path"] == FieldValue(p.path) &&
      forall k :: k in p.options && k != "path" ==> k in r && r[k] == p.options[k])
  {
    match p
    case PathString(s) => map["path" := Str(s)]
    case PathObject(f, opts) => opts["path" := FieldValue(f)]
  }

  /** `obj.paths || []`: the path entries of a configuration object. A
      list of plain strings is a list of string entries; a missing `paths`
      gives `[]`, and so, here, does any value that is not a list. */
  function PathsOf(obj: Obj): seq<PathInput> {
    if "paths" in obj && obj["paths"].Inputs? then obj["paths"].inputs
    else if "paths" in obj && obj["paths"].Strs? then
      seq(|obj["paths"].items|, i requires 0 <= i < |obj["paths"].items| => PathString(obj["paths"].items[i]))
    else []
  }

  const DefaultModuleTemplate := "export { default as {name} } from '{path}';"
  const DefaultRecursionTemplate := "import * as {name} from '{path}';"
  const DefaultRecursionTemplateExport := "export { {moduleList} };"

  /** `src/params/options.ts`: the per-path option table. */
  const OptionTable: Obj := map[
    "fileExtension" := Descriptor("e", Str("js"), "File extension of generated index file.", "string"),
    "fileExtensionInPath" := Descriptor("fep", Bool(false), "Adds file extension to recursive paths.", "boolean"),
    "fileName" := Descriptor("n", Str("index"), "File name of generated index file.", "string"),
    "fileNameInPath" := Descriptor("fnp", Bool(false), "Includes file name in recursive paths.", "boolean"),
    "ignoreFiles" := Descriptor("i", Strs([]), "List of ignored file names.", "array"),
    "moduleExtension" := Descriptor("me", Str("js"), "File extension of modules.", "string"),
    "moduleExtensionInPath" := Descriptor("mep", Bool(false), "Adds module extension to path.", "boolean"),
    "moduleTemplate" := Descriptor("mt", Str(DefaultModuleTemplate), "Template for module export.", "string"),
    "recursion" := Descriptor("r", Bool(true), "Enable recursion.", "boolean"),
    "recursionTemplate" := Descriptor("rt", Str(DefaultRecursionTemplate), "Template for recursion.", "string"),
    "recursionTemplateExport" := Descriptor("rte", Str(DefaultRecursionTemplateExport), "Template for recursion export.", "string")
  ]

  /** Every option is a descriptor whose default has the type it declares. */
  lemma OptionTableTyped()
    ensures forall k :: k in OptionTable ==> (OptionTable[k].Descriptor? &&
      (OptionTable[k].kind == "boolean" <==> OptionTable[k].default.Bool?) &&
      (OptionTable[k].kind == "string" <==> OptionTable[k].default.Str?) &&
      (OptionTable[k].kind == "array" <==> OptionTable[k].default.Strs?))
  {
  }

  /** `src/params/config.ts`: the run-wide parameter table. */
  const ParamTable: Obj := map[
    "help" := Descriptor("h", Bool(false), "Displays help.", "boolean"),
    "log" := Descriptor("l", Bool(false), "Enables simple logging messages.", "boolean"),
    "paths" := Descriptor("p", Inputs([]), "List of paths that should be analyzed.", "array"),
    "test" := Descriptor("t", Bool(false), "Enables test mode.", "boolean"),
    "version" := Descriptor("v", Bool(false), "Shows currently installed package version.", "boolean"),
    "watch" := Descriptor("w", Bool(false), "Enables watch mode.", "boolean")
  ]

  /** `src/args/config.ts`: the command-line flag table, without `test`. */
  const ArgumentTable: Obj := map[
    "help" := Descriptor("h", Bool(false), "Displays help.", "boolean"),
    "log" := Descriptor("l", Bool(false), "Enables simple logging messages.", "boolean"),
    "paths" := Descriptor("p", Inputs([]), "List of paths that should be analyzed.", "array"),
    "version" := Descriptor("v", Bool(false), "Shows currently installed package version.", "boolean"),
    "watch" := Descriptor("w", Bool(false), "Enables watch mode.", "boolean")
  ]
}
