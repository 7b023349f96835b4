/**
 * How the program was started. The Python code asks `sys.frozen`,
 * `sys._MEIPASS`, `sys.executable` and `__file__` each time it needs a path;
 * here that answer is one value passed to every rule that depends on it.
 */
module Deployment {
  import opened Wrappers

  /** A filesystem path as its list of components; `Path(p) / name` is `p + [name]`. */
  type Path = seq<string>

  /** `p / name` in pathlib terms. */
  function Join(p: Path, name: string): (r: Path)
    ensures |r| == |p| + 1 && r[..|p|] == p && r[|p|] == name
  {
    p + [name]
  }

  /**
   * Frozen: running as a PyInstaller executable living in `exeDir`
   * (`Path(sys.executable).parent`), with `meipass` the extracted bundle
   * directory when `sys._MEIPASS` exists.
   * Source: running the scripts; `root` is the project root
   * (`Path(__file__).parent.parent` of a file one package deep).
   */
  datatype DeploymentMode =
    | Frozen(exeDir: Path, meipass: Option<Path>)
    | Source(root: Path)
}
