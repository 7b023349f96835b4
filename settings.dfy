/**
 * Application settings (config/settings.py): the release endpoint, the
 * release download URL, the deployment-dependent paths of the bundled files
 * and the two template collections.
 */
module Settings {
  import opened Wrappers
  import opened Deployment

  // GitHub repository that publishes the releases.
  const Owner := "teja1337"
  const RepoName := "HelperTemplates"

  // File names the application looks for.
  const VersionFile := "version.json"
  const IconFile := "icon.ico"
  const UpdaterExe := "updater.exe"
  const UpdateFile := "Helper_update.exe"
  const TemplatesClientsFile := "templates_clients.json"
  const TemplatesColleaguesFile := "templates_colleagues.json"

  // The two template collections ("Clients" and "Colleagues").
  const Clients := "Клиенты"
  const Colleagues := "Коллеги"

  /** GITHUB.get_api_url: the "latest release" endpoint of the repository. */
  function ApiUrl(): (url: string)
    ensures url == "https://api.github.com/repos/teja1337/HelperTemplates/releases/latest"
  {
    "https://api.github.com/repos/" + Owner + "/" + RepoName + "/releases/latest"
  }

  const ReleaseDownloadPrefix := "https://github.com/" + Owner + "/" + RepoName + "/releases/download/v"
  const ReleaseAssetSuffix := "/Helper.exe"

  /** GITHUB.get_release_url: where the executable of release `v<version>` is published. */
  function ReleaseUrl(version: string): (url: string)
    ensures ReleaseVersionOf(url) == Some(version)
    ensures |url| == |ReleaseDownloadPrefix| + |version| + |ReleaseAssetSuffix|
  {
    ReleaseDownloadPrefix + version + ReleaseAssetSuffix
  }

  /** Reads the version back out of a release download URL; None when `url` has another shape. */
  function ReleaseVersionOf(url: string): Option<string> {
    var n, m := |ReleaseDownloadPrefix|, |ReleaseAssetSuffix|;
    if n + m <= |url| && url[..n] == ReleaseDownloadPrefix && url[|url| - m..] == ReleaseAssetSuffix
    then Some(url[n..|url| - m])
    else None
  }

  /** The other direction of the round trip: every URL that ReleaseVersionOf accepts is a release URL. */
  lemma ReleaseUrlOnto(url: string, version: string)
    requires ReleaseVersionOf(url) == Some(version)
    ensures ReleaseUrl(version) == url
  {
    var n, m := |ReleaseDownloadPrefix|, |ReleaseAssetSuffix|;
    assert url == url[..n] + url[n..|url| - m] + url[|url| - m..];
  }

  /** PATHS.get_version_path: the bundle directory, else the executable's directory, else the project root. */
  function VersionPath(mode: DeploymentMode): (p: Path)
    ensures |p| >= 1 && p[|p| - 1] == VersionFile
  {
    match mode
    case Frozen(exeDir, meipass) =>
      if meipass.Some? then Join(meipass.value, VersionFile) else Join(exeDir, VersionFile)
    case Source(root) => Join(root, VersionFile)
  }

  /** PATHS.get_updater_path: beside the executable when frozen, `dist/updater.exe` from source. */
  function UpdaterPath(mode: DeploymentMode): (p: Path)
    ensures |p| >= 1 && p[|p| - 1] == UpdaterExe
  {
    match mode
    case Frozen(exeDir, _) => Join(exeDir, UpdaterExe)
    case Source(_) => Join(["dist"], UpdaterExe)
  }

  /** The icon locations PATHS.get_icon_paths tries, in the order it tries them. */
  function IconCandidates(mode: DeploymentMode): (c: seq<Path>)
    ensures |c| == if mode.Frozen? && mode.meipass.Some? then 2 else 1
    ensures forall i | 0 <= i < |c| :: |c[i]| >= 1 && c[i][|c[i]| - 1] == IconFile
    ensures mode.Frozen? ==> c[0] == Join(mode.exeDir, IconFile)
  {
    match mode
    case Frozen(exeDir, meipass) =>
      [Join(exeDir, IconFile)] + (if meipass.Some? then [Join(meipass.value, IconFile)] else [])
    case Source(root) => [Join(root, IconFile)]
  }

  /** `sub` is `s` with some elements dropped and the rest kept in order. */
  ghost predicate IsSubsequence<T>(sub: seq<T>, s: seq<T>)
    decreases |s|
  {
    if sub == [] then true
    else if s == [] then false
    else (sub[0] == s[0] && IsSubsequence(sub[1..], s[1..])) || IsSubsequence(sub, s[1..])
  }

  /** `[p for p in paths if p.exists()]`, with `fs` the set of paths that exist. */
  function ExistingOnly(paths: seq<Path>, fs: set<Path>): (r: seq<Path>)
    ensures forall p :: p in r <==> p in paths && p in fs
    ensures IsSubsequence(r, paths)
    ensures forall q :: multiset(r)[q] == if q in fs then multiset(paths)[q] else 0
  {
    if paths == [] then []
    else
      assert paths == [paths[0]] + paths[1..];
      if paths[0] in fs then [paths[0]] + ExistingOnly(paths[1..], fs)
      else ExistingOnly(paths[1..], fs)
  }

  /** PATHS.get_icon_paths: collects the candidates, then keeps those that exist, in order. */
  method GetIconPaths(mode: DeploymentMode, fs: set<Path>) returns (paths: seq<Path>)
    ensures paths == ExistingOnly(IconCandidates(mode), fs)
    ensures forall p :: p in paths <==> p in IconCandidates(mode) && p in fs
    ensures mode.Frozen? && Join(mode.exeDir, IconFile) in fs ==> paths[0] == Join(mode.exeDir, IconFile)
    ensures mode.Source? ==> |paths| <= 1
  {
    var iconPaths: seq<Path> := [];
    match mode {
      case Frozen(exeDir, meipass) =>
        iconPaths := iconPaths + [Join(exeDir, IconFile)];
        if meipass.Some? {
          iconPaths := iconPaths + [Join(meipass.value, IconFile)];
        }
      case Source(root) =>
        iconPaths := iconPaths + [Join(root, IconFile)];
    }
    assert iconPaths == IconCandidates(mode);
    paths := ExistingOnly(iconPaths, fs);
    if iconPaths[0] in fs {
      assert paths == [iconPaths[0]] + ExistingOnly(iconPaths[1..], fs);
    }
  }

  /** PATHS.APP_DATA_DIR: the `Helper` folder under `%APPDATA%`. */
  function AppDataDir(appData: Path): (d: Path)
    ensures |d| == |appData| + 1 && d[..|appData|] == appData && d[|appData|] == "Helper"
  {
    Join(appData, "Helper")
  }

  /** CATEGORIES.get_all. */
  function CategoryTypes(): (types: seq<string>)
    ensures |types| == 2 && types[0] != types[1]
    ensures Clients in types && Colleagues in types
    ensures types[0] == Clients
  {
    [Clients, Colleagues]
  }

  /** CATEGORIES.get_file_path: the JSON file of a collection, None for any other name. */
  function FilePath(appData: Path, categoryType: string): (r: Option<Path>)
    ensures r.Some? <==> categoryType in CategoryTypes()
    ensures r.Some? ==> |r.value| == |appData| + 2 && r.value[..|appData| + 1] == AppDataDir(appData)
  {
    if categoryType == Clients then Some(Join(AppDataDir(appData), TemplatesClientsFile))
    else if categoryType == Colleagues then Some(Join(AppDataDir(appData), TemplatesColleaguesFile))
    else None
  }

  /** The two collections are stored in different files. */
  lemma FilePathsDistinct(appData: Path)
    ensures FilePath(appData, Clients) != FilePath(appData, Colleagues)
  {
    var c, d := FilePath(appData, Clients).value, FilePath(appData, Colleagues).value;
    assert c[|appData| + 1] != d[|appData| + 1];
  }
}
