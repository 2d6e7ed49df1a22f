/** The records of the engine (the `Module`, `Path`, `Fs`, `Callback` and
    `Master` interfaces) and the collaborators it calls but does not define. */
module Types {
  import opened Regex

  /** One exportable unit. An absent `hasRecursion` is `false`. */
  datatype Module = Module(hasRecursion: bool, name: string, path: string)

  /** The effective options of one declared directory. An absent or empty
      template is `""`; absent `ignoreFiles` is `[]`. Only string ignore
      entries are modelled. */
  datatype Path = Path(
    path: string,
    fileExtension: string,
    fileExtensionInPath: bool,
    fileName: string,
    fileNameInPath: bool,
    ignoreFiles: seq<string>,
    moduleExtension: string,
    moduleExtensionInPath: bool,
    moduleTemplate: string,
    recursion: bool,
    recursionTemplate: string,
    recursionTemplateExport: string)

  datatype Action = Add | NoChange | Update | Remove

  /** What a filesystem action reports. */
  datatype Fs = Fs(action: Action, message: string)

  /** The record for one synchronised directory. */
  datatype Callback = Callback(
    action: Action,
    message: string,
    content: string,
    modules: seq<Module>,
    options: Path)

  /** The part of the master configuration the engine reads. `log` only
      selects console output. */
  datatype Master = Master(log: bool, test: bool, paths: seq<Path>)

  /** Code the engine calls into without its source being part of this model:
      the md5 digest, the `module/name` sanitiser, `path.normalize`,
      `path.resolve` (which depends on the working directory) and the
      regular-expression engine for user `/…/` bodies. */
  datatype Env = Env(
    hash: string -> string,
    name: string -> string,
    normalize: string -> string,
    resolve: string -> string,
    userMatch: UserMatcher)
}
