/** The recursive module of `src/module/resolve/asDirectory.ts`: a declared
    sub-directory whose own listing is not empty. */
module ResolveDirectory {
  import opened Outcomes
  import opened Strings
  import opened Types

  /** `computeFilePath`: the suffix that points the import at the
      sub-directory's index file. */
  function ComputeFilePath(o: Path): (r: string)
    ensures r == "" <==> !o.fileNameInPath && !o.fileExtensionInPath
    ensures o.fileExtensionInPath ==> r == "/" + o.fileName + "." + o.fileExtension
    ensures o.fileNameInPath && !o.fileExtensionInPath ==> r == "/" + o.fileName
  {
    if o.fileNameInPath || o.fileExtensionInPath then
      "/" + o.fileName + (if o.fileExtensionInPath then "." + o.fileExtension else "")
    else ""
  }

  /** The default export: `null` for an empty sub-listing, otherwise a module
      with `hasRecursion` set, named after the directory. */
  function AsDirectory(env: Env, path: string, modules: seq<Module>, o: Path): (r: Option<Module>)
    ensures r.None? <==> |modules| == 0
    ensures r.Some? ==> r.value.hasRecursion
    ensures r.Some? ==> r.value.name == env.name(Basename(path, "." + o.fileExtension))
    ensures r.Some? ==> r.value.path == "./" + Basename(path, "." + o.fileExtension) + ComputeFilePath(o)
  {
    if |modules| == 0 then None
    else
      var fileName := Basename(path, "." + o.fileExtension);
      Some(Module(true, env.name(fileName), "./" + fileName + ComputeFilePath(o)))
  }

  /** Only the emptiness of the sub-listing matters, not its contents. */
  lemma OnlyEmptinessMatters(env: Env, path: string, m1: seq<Module>, m2: seq<Module>, o: Path)
    requires (|m1| == 0) == (|m2| == 0)
    ensures AsDirectory(env, path, m1, o) == AsDirectory(env, path, m2, o)
  {
  }
}
