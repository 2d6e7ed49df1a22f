/** The configuration merges: `src/utils/computePaths.ts`,
    `src/transform/toPath.ts`, `src/utils/computeConfig.ts` and
    `src/transform/toMaster.ts`. The cosmiconfig search is a parameter: the
    object it found (`{}` when none) or the error it rejected with. The
    unseen `utils/filterObjectKeys` is taken to behave as `filterKeys`. */
module Configuration {
  import opened Outcomes
  import opened Options
  import opened ObjectUtils
  import opened PathList

  // ---------------------------------------------------------------------
  // computePaths and toPath

  /** One entry of `computePaths`: the option table itself, then the option
      keys of `config`, then the entry (a string `s` as `{path: s}`). */
  function PathOptions(config: Obj, p: PathInput): (r: Obj)
    ensures "path" in r && r["path"] == AsObject(p)["path"]
    ensures OptionTable.Keys <= r.Keys
    ensures r.Keys == OptionTable.Keys + AsObject(p).Keys
    ensures forall k :: k in AsObject(p) ==> r[k] == AsObject(p)[k]
    ensures forall k :: k in OptionTable && k in config && k !in AsObject(p) ==> r[k] == config[k]
    ensures forall k :: k in OptionTable && k !in config && k !in AsObject(p) ==> r[k] == OptionTable[k]
  {
    OptionTable + FilterKeys(config, OptionTable.Keys) + AsObject(p)
  }

  /** `computePaths(config, paths)`. */
  function ComputePaths(config: Obj, paths: seq<PathInput>): (r: seq<Obj>)
    ensures |r| == |paths|
    ensures forall i :: 0 <= i < |paths| ==> r[i] == PathOptions(config, paths[i])
  {
    seq(|paths|, i requires 0 <= i < |paths| => PathOptions(config, paths[i]))
  }

  /** Every computed entry holds every option key, and an option neither the
      entry nor `config` sets holds the table's descriptor, not its
      default. */
  lemma DescriptorsLeak(config: Obj, s: string)
    requires "recursion" !in config
    ensures PathOptions(config, PathString(s))["recursion"] == OptionTable["recursion"]
    ensures PathOptions(config, PathString(s))["recursion"].Descriptor?
  {
    assert "recursion" in OptionTable;
  }

  /** `toPath(path, options, config)`. */
  function ToPath(path: string, options: Obj, config: Obj): (r: Obj)
    ensures "path" in r && r["path"] == Str(path)
    ensures r.Keys == (config.Keys * OptionTable.Keys) + options.Keys + {"path"}
    ensures forall k :: k in options && k != "path" ==> r[k] == options[k]
    ensures forall k :: k in config && k in OptionTable && k !in options && k != "path" ==> r[k] == config[k]
  {
    FilterKeys(config, OptionTable.Keys) + options + map["path" := Str(path)]
  }

  // ---------------------------------------------------------------------
  // computeConfig

  /** `Object.assign({}, getArgumentDefaults(), params, cosmiconfig)`. */
  function MergedConfig(argOptions: Obj, params: Obj, cosmiconfig: Obj): (r: Obj)
    ensures forall k :: k in cosmiconfig ==> k in r && r[k] == cosmiconfig[k]
    ensures forall k :: k in params && k !in cosmiconfig ==> k in r && r[k] == params[k]
    ensures forall k :: k in r ==> k in cosmiconfig || k in params || k in ArgumentTable || k in argOptions
    ensures forall k :: k in ArgumentTable + argOptions && k !in params && k !in cosmiconfig ==>
      k in r && r[k] == DefaultOf((ArgumentTable + argOptions)[k])
  {
    Defaults(ArgumentTable + argOptions) + params + cosmiconfig
  }

  /** `Object.assign({}, filterKeys(config, ...keys), {paths})`. */
  function WithPaths(config: Obj, keys: set<string>, paths: Value): (r: Obj)
    ensures r.Keys == (config.Keys * keys) + {"paths"}
    ensures r["paths"] == paths
    ensures forall k :: k in config && k in keys && k != "paths" ==> r[k] == config[k]
  {
    FilterKeys(config, keys) + map["paths" := paths]
  }

  /** Filtering after setting `paths` is setting it after filtering, when
      `paths` is one of the allowed keys. */
  lemma FilterThenPaths(config: Obj, keys: set<string>, paths: Value)
    requires "paths" in keys
    ensures FilterKeys(config + map["paths" := paths], keys) == WithPaths(config, keys, paths)
  {
    var l := FilterKeys(config + map["paths" := paths], keys);
    var r := WithPaths(config, keys, paths);
    assert l.Keys == r.Keys;
    forall k | k in l ensures l[k] == r[k] {
      if k != "paths" {
        assert k in config;
      }
    }
  }

  /** Over a merge in which `found` beats `params`, the filtered object
      keeps that precedence on every allowed key but `paths`. */
  lemma PathsKeepPrecedence(config: Obj, keys: set<string>, paths: Value, params: Obj, found: Obj)
    requires "paths" in keys
    requires forall k :: k in found ==> k in config && config[k] == found[k]
    requires forall k :: k in params && k !in found ==> k in config && config[k] == params[k]
    ensures var r := WithPaths(config, keys, paths);
      r.Keys <= keys && "paths" in r && r["paths"] == paths &&
      (forall k :: k in keys && k != "paths" && k in found ==> k in r && r[k] == found[k]) &&
      (forall k :: k in keys && k != "paths" && k in params && k !in found ==> k in r && r[k] == params[k])
  {
  }

  /** `computeConfig(params)`: the run-wide keys of the merged object, and
      the per-path options of the caller's paths followed by the found
      file's paths. */
  function ComputeConfig(argOptions: Obj, params: Obj, cosmiconfig: Result<Obj>): (r: Result<Obj>)
    ensures r.Err? <==> cosmiconfig.Err?
    ensures r.Err? ==> r.error == cosmiconfig.error
  {
    match cosmiconfig
    case Err(e) => Err(e)
    case Ok(found) =>
      var config := MergedConfig(argOptions, params, found);
      Ok(WithPaths(config, ParamTable.Keys, Records(ComputePaths(config, PathsOf(params) + PathsOf(found)))))
  }

  /** The computed object holds parameter names only; `paths` is the
      computed list of the caller's paths followed by the found file's; on
      every other parameter the found file beats `params`. */
  lemma ComputedKeys(argOptions: Obj, params: Obj, found: Obj)
    ensures var r := ComputeConfig(argOptions, params, Ok(found)).value;
      r.Keys <= ParamTable.Keys && "paths" in r &&
      r["paths"] == Records(ComputePaths(MergedConfig(argOptions, params, found), PathsOf(params) + PathsOf(found))) &&
      (forall k :: k in ParamTable && k != "paths" && k in found ==> k in r && r[k] == found[k]) &&
      (forall k :: k in ParamTable && k != "paths" && k in params && k !in found ==> k in r && r[k] == params[k])
  {
    var config := MergedConfig(argOptions, params, found);
    var v := Records(ComputePaths(config, PathsOf(params) + PathsOf(found)));
    assert "paths" in ParamTable;
    assert ComputeConfig(argOptions, params, Ok(found)).value == WithPaths(config, ParamTable.Keys, v);
    PathsKeepPrecedence(config, ParamTable.Keys, v, params, found);
  }

  // ---------------------------------------------------------------------
  // toMaster

  /** `Object.assign({}, getParamDefaults(), config, cosmiconfig)`; the
      descriptor table is a parameter. */
  function MasterParams(paramTable: Obj, config: Obj, cosmiconfig: Obj): (r: Obj)
    ensures forall k :: k in cosmiconfig ==> k in r && r[k] == cosmiconfig[k]
    ensures forall k :: k in config && k !in cosmiconfig ==> k in r && r[k] == config[k]
    ensures forall k :: k in paramTable && k !in config && k !in cosmiconfig ==> k in r && r[k] == DefaultOf(paramTable[k])
  {
    Defaults(paramTable) + config + cosmiconfig
  }

  /** `[...(config.paths || []), ...(params.paths || [])]`. */
  function RawPaths(config: Obj, params: Obj): (r: seq<PathInput>)
    ensures |r| == |PathsOf(config)| + |PathsOf(params)|
    ensures forall e :: e in r <==> e in PathsOf(config) || e in PathsOf(params)
    ensures "paths" !in config && "paths" !in params ==> r == []
  {
    PathsOf(config) + PathsOf(params)
  }

  /** Entry `i` is the first whose directory list includes `p`. */
  predicate FirstListing(paths: seq<PathInput>, p: string, i: int) {
    0 <= i < |paths| && p in Contribution(paths[i]) &&
    forall j :: 0 <= j < i ==> p !in Contribution(paths[j])
  }

  /** Past a head that does not list `p`, the first listing moves by one. */
  lemma FirstListingShift(paths: seq<PathInput>, p: string)
    requires paths != [] && p !in Contribution(paths[0])
    ensures forall i :: FirstListing(paths[1..], p, i) ==> FirstListing(paths, p, i + 1)
  {
    forall i | FirstListing(paths[1..], p, i) ensures FirstListing(paths, p, i + 1) {
      forall j | 0 <= j < i + 1 ensures p !in Contribution(paths[j]) {
        if j > 0 {
          assert paths[j] == paths[1..][j - 1];
        }
      }
    }
  }

  /** The first entry whose directory list includes `p`. */
  function FirstContaining(paths: seq<PathInput>, p: string): (r: Option<PathInput>)
    ensures r.None? <==> forall i :: 0 <= i < |paths| ==> p !in Contribution(paths[i])
    ensures r.Some? ==> p in Contribution(r.value) && r.value in paths
    ensures r.Some? ==> exists i :: FirstListing(paths, p, i) && paths[i] == r.value
    decreases |paths|
  {
    if paths == [] then None
    else if p in Contribution(paths[0]) then
      assert FirstListing(paths, p, 0);
      Some(paths[0])
    else
      var r := FirstContaining(paths[1..], p);
      assert forall i :: 0 < i < |paths| ==> paths[i] == paths[1..][i - 1];
      FirstListingShift(paths, p);
      r
  }

  /** The matched entry as an object; `[0]` of an empty list is `undefined`,
      which `Object.assign` skips. */
  function MatchedOptions(paths: seq<PathInput>, p: string): (r: Obj)
    ensures r == map[] <==> forall i :: 0 <= i < |paths| ==> p !in Contribution(paths[i])
    ensures r != map[] ==> "path" in r && exists e :: e in paths && p in Contribution(e) && r == AsObject(e)
    ensures r != map[] ==> exists i :: FirstListing(paths, p, i) && r == AsObject(paths[i])
  {
    match FirstContaining(paths, p)
    case None => map[]
    case Some(entry) => AsObject(entry)
  }

  /** One master path: `Object.assign(toPath(p, options, …), {path: p})`. */
  function MasterPath(params: Obj, paths: seq<PathInput>, p: string): (r: Obj)
    ensures "path" in r && r["path"] == Str(p)
    ensures forall k :: k in MatchedOptions(paths, p) && k != "path" ==> k in r && r[k] == MatchedOptions(paths, p)[k]
    ensures forall k :: k in params && k in OptionTable && k !in MatchedOptions(paths, p) && k != "path" ==> k in r && r[k] == params[k]
  {
    var options := MatchedOptions(paths, p);
    var keep := FilterKeys(params, OptionTable.Keys);
    assert forall k :: k in params && k in OptionTable ==> k in keep && keep[k] == params[k];
    ToPath(p, options, keep) + map["path" := Str(p)]
  }

  /** `getPathList(paths).map(…)`: one master path per listed directory. */
  function MasterEntries(params: Obj, paths: seq<PathInput>): (r: seq<Obj>)
    ensures |r| == |GetPathList(paths)|
    ensures forall i :: 0 <= i < |r| ==>
      r[i] == MasterPath(params, paths, GetPathList(paths)[i]) && "path" in r[i] && r[i]["path"] == Str(GetPathList(paths)[i])
  {
    var list := GetPathList(paths);
    seq(|list|, i requires 0 <= i < |list| => MasterPath(params, paths, list[i]))
  }

  /** `toMaster(config)`. */
  function ToMaster(paramTable: Obj, config: Obj, cosmiconfig: Result<Obj>): (r: Result<Obj>)
    ensures r.Err? <==> cosmiconfig.Err?
    ensures r.Err? ==> r.error == cosmiconfig.error
  {
    match cosmiconfig
    case Err(e) => Err(e)
    case Ok(found) =>
      var params := MasterParams(paramTable, config, found);
      var paths := RawPaths(config, params);
      assert "paths" in ParamTable;
      Ok(FilterKeys(params + map["paths" := Records(MasterEntries(params, paths))], ParamTable.Keys))
  }

  /** The master object holds parameter names only; the found file beats
      `config`, which beats the defaults. */
  lemma MasterKeys(paramTable: Obj, config: Obj, found: Obj)
    ensures var r := ToMaster(paramTable, config, Ok(found)).value;
      r.Keys <= ParamTable.Keys && "paths" in r &&
      (forall k :: k in ParamTable && k != "paths" && k in found ==> k in r && r[k] == found[k]) &&
      (forall k :: k in ParamTable && k != "paths" && k in config && k !in found ==> k in r && r[k] == config[k])
  {
    var params := MasterParams(paramTable, config, found);
    var v := Records(MasterEntries(params, RawPaths(config, params)));
    assert "paths" in ParamTable;
    FilterThenPaths(params, ParamTable.Keys, v);
    assert ToMaster(paramTable, config, Ok(found)).value == WithPaths(params, ParamTable.Keys, v);
    PathsKeepPrecedence(params, ParamTable.Keys, v, config, found);
  }

  /** The master paths: one per listed directory, in order, each with `path`
      set to that directory and the options of the first entry naming it. */
  lemma MasterPaths(paramTable: Obj, config: Obj, found: Obj)
    ensures var params := MasterParams(paramTable, config, found);
      var paths := RawPaths(config, params);
      var list := GetPathList(paths);
      var r := ToMaster(paramTable, config, Ok(found)).value["paths"];
      r.Records? && |r.records| == |list| &&
      forall i :: 0 <= i < |list| ==>
        r.records[i] == MasterPath(params, paths, list[i]) && r.records[i]["path"] == Str(list[i])
  {
    var params := MasterParams(paramTable, config, found);
    var entries := MasterEntries(params, RawPaths(config, params));
    assert "paths" in ParamTable;
    assert ToMaster(paramTable, config, Ok(found)).value["paths"] == Records(entries);
  }

  /** Every listed directory has a matching entry. */
  lemma EveryListedPathMatches(paths: seq<PathInput>, p: string)
    requires p in GetPathList(paths)
    ensures FirstContaining(paths, p).Some?
  {
    Listed(paths, p);
  }

  /** When the found file has no `paths`, the caller's paths are taken twice:
      once from `config` and once more through the merged parameters. */
  lemma CallerPathsTwice(paramTable: Obj, config: Obj, found: Obj)
    requires "paths" !in found && "paths" in config && config["paths"].Inputs?
    ensures var params := MasterParams(paramTable, config, found);
      RawPaths(config, params) == PathsOf(config) + PathsOf(config)
  {
  }
}
