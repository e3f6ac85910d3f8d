/** Paths as sequences of components, relative to the process's working
    directory (the empty path), and the errors the operating system and the
    Python runtime raise in the modelled code. */
module Paths {

  type Path = seq<string>

  /** `pathlib.PurePath.parent`: the working directory is its own parent. */
  function Parent(p: Path): (q: Path)
    ensures p != [] ==> p == q + [p[|p| - 1]]
  {
    if p == [] then [] else p[..|p| - 1]
  }

  /** The last component (`os.path.basename`). */
  function Basename(p: Path): string {
    if p == [] then "" else p[|p| - 1]
  }

  /** A file name in the working directory as a path. */
  function InCwd(name: string): (p: Path)
    ensures Parent(p) == [] && Basename(p) == name
  {
    [name]
  }
}

module Errors {
  import opened Paths

  datatype Error =
    | EnvVarNotSet(variable: string)      // os.environ lookup of an unset variable
    | NameNotDefined(name: string)        // NameError
    | TimestampOutOfRange(seconds: int)   // utcfromtimestamp outside years 1..9999
    | FileExists(path: Path)              // EEXIST
    | FileNotFound(path: Path)            // ENOENT
    | NotADirectory(path: Path)           // ENOTDIR
    | IsADirectory(path: Path)            // EISDIR
    | DestinationExists(path: Path)       // shutil.Error from shutil.move
}
