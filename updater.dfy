/**
 * The self-update flow of AppUpdater (utils/updater.py): which version is
 * running, what the latest release offers, whether to update, how the new
 * executable is streamed to disk, and how the external updater is started.
 * Network replies, file contents and the filesystem are given as values.
 */
module Updater {
  import opened Wrappers
  import opened Deployment
  import opened Versions
  import Settings

  // The updater's own copies of the names it shares with the settings.
  const VersionFileName := "version.json"
  const RepoOwner := "teja1337"
  const RepoName := "HelperTemplates"
  const ArtifactName := "Helper.exe"
  const UpdateFileName := "Helper_update.exe"
  const UpdaterExeName := "updater.exe"
  /** What the updater answers when it cannot tell the running version. */
  const UnknownVersion := "0.0.0"
  /** The tag assumed when the release reply has none. */
  const DefaultTag := "v0.0.0"

  // ---------------------------------------------------------------- local version

  /**
   * What reading version.json gives: Unreadable when the file is missing or
   * cannot be opened or decoded as a JSON object, otherwise its `version` field.
   */
  datatype VersionFile = Unreadable | Json(version: Option<string>)

  /** Where get_local_version looks for version.json. */
  function LocalVersionPath(mode: DeploymentMode): Path {
    match mode
    case Frozen(exeDir, meipass) =>
      if meipass.Some? then Join(meipass.value, VersionFileName) else Join(exeDir, VersionFileName)
    case Source(root) => Join(root, VersionFileName)
  }

  /** Python truthiness of an optional string: present and non-empty. */
  predicate Truthy(s: Option<string>) {
    s.Some? && s.value != ""
  }

  /**
   * AppUpdater.get_local_version: the version built into the program when it
   * has a non-empty one, else the `version` field of version.json, else 0.0.0.
   */
  function GetLocalVersion(builtIn: Option<string>, mode: DeploymentMode, files: map<Path, VersionFile>): (v: string)
    ensures Truthy(builtIn) ==> v == builtIn.value
    ensures !Truthy(builtIn) && LocalVersionPath(mode) in files && files[LocalVersionPath(mode)].Json?
            ==> v == files[LocalVersionPath(mode)].version.GetOr(UnknownVersion)
    ensures !Truthy(builtIn) && (LocalVersionPath(mode) !in files || files[LocalVersionPath(mode)].Unreadable?)
            ==> v == UnknownVersion
  {
    if Truthy(builtIn) then builtIn.value
    else
      var path := LocalVersionPath(mode);
      if path in files && files[path].Json? then files[path].version.GetOr(UnknownVersion)
      else UnknownVersion
  }

  /** A non-empty built-in version is used without looking at any file. */
  lemma BuiltInVersionIgnoresFiles(builtIn: Option<string>, mode: DeploymentMode, files: map<Path, VersionFile>,
                                   mode': DeploymentMode, files': map<Path, VersionFile>)
    requires Truthy(builtIn)
    ensures GetLocalVersion(builtIn, mode, files) == GetLocalVersion(builtIn, mode', files')
  {
  }

  /** The updater and the settings look for version.json in the same place. */
  lemma VersionPathsAgree(mode: DeploymentMode)
    ensures LocalVersionPath(mode) == Settings.VersionPath(mode)
  {
  }

  // ---------------------------------------------------------------- remote version

  /** One entry of the release's `assets` list. */
  datatype Asset = Asset(name: string, downloadUrl: string)

  /**
   * The reply of the "latest release" endpoint; Unavailable covers network and
   * HTTP errors. A reply without an `assets` list has the empty list.
   */
  datatype ReleaseReply =
    | Unavailable
    | Release(tagName: Option<string>, assets: seq<Asset>)

  /** A release the application can update to. */
  datatype RemoteRelease = RemoteRelease(version: string, downloadUrl: string)

  /** The endpoint get_remote_version queries. */
  function ReleaseApiUrl(): string {
    "https://api.github.com/repos/" + RepoOwner + "/" + RepoName + "/releases/latest"
  }

  /** The updater queries the endpoint the settings name. */
  lemma ApiUrlsAgree()
    ensures ReleaseApiUrl() == Settings.ApiUrl()
  {
  }

  /** `s.lstrip('v')`: drops every leading 'v'. */
  function StripLeadingV(s: string): (r: string)
    ensures |r| <= |s| && r == s[|s| - |r|..]
    ensures forall i | 0 <= i < |s| - |r| :: s[i] == 'v'
    ensures r == [] || r[0] != 'v'
  {
    if s != [] && s[0] == 'v' then StripLeadingV(s[1..]) else s
  }

  /** Index `i` holds the first asset named Helper.exe. */
  ghost predicate IsFirstArtifact(assets: seq<Asset>, i: int) {
    0 <= i < |assets| && assets[i].name == ArtifactName
    && forall j | 0 <= j < i :: assets[j].name != ArtifactName
  }

  /** The download URL of the first asset named Helper.exe, if any. */
  function FirstArtifactUrl(assets: seq<Asset>): (url: Option<string>)
    ensures url.None? <==> forall i | 0 <= i < |assets| :: assets[i].name != ArtifactName
    ensures url.Some? ==> exists i :: IsFirstArtifact(assets, i) && url.value == assets[i].downloadUrl
  {
    if assets == [] then None
    else if assets[0].name == ArtifactName then
      assert IsFirstArtifact(assets, 0);
      Some(assets[0].downloadUrl)
    else
      var rest := FirstArtifactUrl(assets[1..]);
      assert forall i | 1 <= i < |assets| :: assets[i] == assets[1..][i - 1];
      assert rest.Some? ==> exists i :: IsFirstArtifact(assets, i) && rest.value == assets[i].downloadUrl by {
        if rest.Some? {
          var i :| IsFirstArtifact(assets[1..], i) && rest.value == assets[1..][i].downloadUrl;
          assert IsFirstArtifact(assets, i + 1);
        }
      }
      rest
  }

  /** The asset scan of get_remote_version: a loop that stops at the first Helper.exe. */
  method FindArtifactUrl(assets: seq<Asset>) returns (url: Option<string>)
    ensures url == FirstArtifactUrl(assets)
  {
    url := None;
    var i := 0;
    while i < |assets|
      invariant 0 <= i <= |assets|
      invariant url.None?
      invariant forall j | 0 <= j < i :: assets[j].name != ArtifactName
    {
      if assets[i].name == ArtifactName {
        url := Some(assets[i].downloadUrl);
        assert IsFirstArtifact(assets, i);
        break;
      }
      i := i + 1;
    }
  }

  /**
   * AppUpdater.get_remote_version: the tag without its leading 'v's and the
   * Helper.exe URL, or nothing when the reply failed or holds no usable URL.
   */
  function GetRemoteVersion(reply: ReleaseReply): (r: Option<RemoteRelease>)
    ensures r.Some? <==> reply.Release? && FirstArtifactUrl(reply.assets).Some?
                         && FirstArtifactUrl(reply.assets).value != ""
    ensures reply.Release? && (forall i | 0 <= i < |reply.assets| :: reply.assets[i].name != ArtifactName)
            ==> r.None?
    ensures r.Some? ==> r.value.downloadUrl != ""
                        && exists i :: IsFirstArtifact(reply.assets, i) && r.value.downloadUrl == reply.assets[i].downloadUrl
    ensures r.Some? && reply.tagName.None? ==> r.value.version == UnknownVersion
    ensures r.Some? && reply.tagName.Some? ==> r.value.version == StripLeadingV(reply.tagName.value)
  {
    match reply
    case Unavailable => None
    case Release(tagName, assets) =>
      var tag := StripLeadingV(tagName.GetOr(DefaultTag));
      assert tagName.None? ==> tag == StripLeadingV(UnknownVersion) == UnknownVersion;
      var url := FirstArtifactUrl(assets);
      if url.None? || url.value == "" then None
      else Some(RemoteRelease(tag, url.value))
  }

  // ---------------------------------------------------------------- update check

  /** The triple check_for_updates returns. */
  datatype UpdateCheck = UpdateCheck(hasUpdate: bool, version: string, downloadUrl: Option<string>)

  /** An empty version string is never newer than anything. */
  lemma EmptyIsNeverNewer(local: string)
    ensures !CompareVersions(local, "")
  {
    CompareMalformed(local, "", 0);
  }

  /**
   * AppUpdater.check_for_updates: offers the remote release when it exists and
   * is newer than the running version; otherwise reports the running version.
   */
  function CheckForUpdates(builtIn: Option<string>, mode: DeploymentMode, files: map<Path, VersionFile>,
                           reply: ReleaseReply): (r: UpdateCheck)
    ensures var local, remote := GetLocalVersion(builtIn, mode, files), GetRemoteVersion(reply);
            && (r.hasUpdate <==> remote.Some? && CompareVersions(local, remote.value.version))
            && (r.hasUpdate ==> r.version == remote.value.version && r.downloadUrl == Some(remote.value.downloadUrl))
            && (!r.hasUpdate ==> r == UpdateCheck(false, local, None))
    ensures r.hasUpdate ==> r.downloadUrl.Some? && r.downloadUrl.value != ""
    ensures r.hasUpdate ==> ListLess(ParseVersion(GetLocalVersion(builtIn, mode, files)).value, ParseVersion(r.version).value)
    ensures reply.Unavailable? ==> !r.hasUpdate
  {
    var local := GetLocalVersion(builtIn, mode, files);
    var remote := GetRemoteVersion(reply);
    if remote.Some? && remote.value.version != "" && CompareVersions(local, remote.value.version) then
      UpdateCheck(true, remote.value.version, Some(remote.value.downloadUrl))
    else
      EmptyIsNeverNewer(local);
      UpdateCheck(false, local, None)
  }

  /**
   * With a non-empty built-in version and a release whose only asset is
   * Helper.exe, the check depends only on the comparison with the stripped tag.
   */
  lemma SingleArtifactCheck(local: string, mode: DeploymentMode, files: map<Path, VersionFile>, tag: string, url: string)
    requires local != ""
    ensures CheckForUpdates(Some(local), mode, files, Release(Some(tag), [Asset(ArtifactName, url)]))
         == if url != "" && CompareVersions(local, StripLeadingV(tag))
            then UpdateCheck(true, StripLeadingV(tag), Some(url))
            else UpdateCheck(false, local, None)
  {
    assert FirstArtifactUrl([Asset(ArtifactName, url)]) == Some(url);
  }

  /** Running 1.0.0, release v1.1.0 with Helper.exe: the update to 1.1.0 is offered. */
  lemma UpdateOffered(url: string, files: map<Path, VersionFile>, mode: DeploymentMode)
    requires url != ""
    ensures CheckForUpdates(Some("1.0.0"), mode, files, Release(Some("v1.1.0"), [Asset(ArtifactName, url)]))
         == UpdateCheck(true, "1.1.0", Some(url))
  {
    SingleArtifactCheck("1.0.0", mode, files, "v1.1.0", url);
    ScenarioTags();
    ScenarioComparisons();
  }

  /** Running 2.0.0, release v1.9.9: no update, the running version is reported. */
  lemma OlderReleaseIgnored(url: string, files: map<Path, VersionFile>, mode: DeploymentMode)
    ensures CheckForUpdates(Some("2.0.0"), mode, files, Release(Some("v1.9.9"), [Asset(ArtifactName, url)]))
         == UpdateCheck(false, "2.0.0", None)
  {
    SingleArtifactCheck("2.0.0", mode, files, "v1.9.9", url);
    ScenarioTags();
    ScenarioComparisons();
  }

  /** A tag with a single leading 'v' loses exactly that character. */
  lemma StripSingleV(tag: string)
    requires |tag| >= 2 && tag[0] == 'v' && tag[1] != 'v'
    ensures StripLeadingV(tag) == tag[1..]
  {
    assert StripLeadingV(tag) == StripLeadingV(tag[1..]);
    assert tag[1..][0] == tag[1];
  }

  /** The tags the scenarios above use. */
  lemma ScenarioTags()
    ensures StripLeadingV("v1.1.0") == "1.1.0" && StripLeadingV("v1.9.9") == "1.9.9"
  {
    StripSingleV("v1.1.0");
    StripSingleV("v1.9.9");
    assert "v1.1.0"[1..] == "1.1.0" && "v1.9.9"[1..] == "1.9.9";
  }

  /** The comparisons the scenarios above rely on. */
  lemma ScenarioComparisons()
    ensures CompareVersions("1.0.0", "1.1.0")
    ensures !CompareVersions("2.0.0", "1.9.9")
  {
    ParseThreeDigits('1', '0', '0');
    ParseThreeDigits('1', '1', '0');
    ParseThreeDigits('2', '0', '0');
    ParseThreeDigits('1', '9', '9');
    assert "1.0.0" == ['1', '.', '0', '.', '0'] && "1.1.0" == ['1', '.', '1', '.', '0'];
    assert "2.0.0" == ['2', '.', '0', '.', '0'] && "1.9.9" == ['1', '.', '9', '.', '9'];
    LexLessIff([1, 0, 0], [1, 1, 0]);
    LexLessIff([2, 0, 0], [1, 9, 9]);
  }

  // ---------------------------------------------------------------- download

  newtype byte = x: int | 0 <= x < 256

  /** The body of the download reply, as the chunks it arrives in. */
  type Chunk = seq<byte>

  /**
   * The reply to the download request. Failed covers network and HTTP errors;
   * a Stream delivers `chunks` and then, when `interrupted`, raises.
   */
  datatype DownloadReply =
    | Failed
    | Stream(contentLength: Option<string>, chunks: seq<Chunk>, interrupted: bool)

  /** One call of the progress callback: `downloaded` of `total` bytes (the percentage is 100 * downloaded / total). */
  datatype Progress = Progress(downloaded: nat, total: nat)

  /** Where download_update saves the new executable. */
  function DownloadSavePath(mode: DeploymentMode): Path {
    match mode
    case Frozen(exeDir, _) => Join(exeDir, UpdateFileName)
    case Source(_) => [UpdateFileName]
  }

  /** The staged file is the one the settings call PATHS.UPDATE_FILE. */
  lemma SavePathNamesUpdateFile(mode: DeploymentMode)
    ensures DownloadSavePath(mode)[|DownloadSavePath(mode)| - 1] == Settings.UpdateFile
  {
  }

  /** `int(headers.get('content-length', 0))`: 0 without the header, None when the header is not a number. */
  function TotalSize(contentLength: Option<string>): Option<nat> {
    if contentLength.None? then Some(0) else ParseSegment(contentLength.value)
  }

  /** All bytes of the chunks, in order. */
  function Concat(chunks: seq<Chunk>): seq<byte> {
    if chunks == [] then [] else Concat(chunks[..|chunks| - 1]) + chunks[|chunks| - 1]
  }

  /** How many chunks are non-empty. */
  function CountNonEmpty(chunks: seq<Chunk>): nat {
    if chunks == [] then 0
    else CountNonEmpty(chunks[..|chunks| - 1]) + (if chunks[|chunks| - 1] == [] then 0 else 1)
  }

  /** The callback calls made while `chunks` are written: one after each non-empty chunk. */
  function ProgressReports(chunks: seq<Chunk>, total: nat): seq<Progress> {
    if chunks == [] then []
    else
      var before := ProgressReports(chunks[..|chunks| - 1], total);
      if chunks[|chunks| - 1] == [] then before else before + [Progress(|Concat(chunks)|, total)]
  }

  /**
   * The progress reports count the non-empty chunks, carry the total, rise
   * strictly, never pass the bytes written, and the last one is all of them.
   */
  lemma {:induction false} ProgressReportsRise(chunks: seq<Chunk>, total: nat)
    ensures var r := ProgressReports(chunks, total);
            && |r| == CountNonEmpty(chunks)
            && (forall k | 0 <= k < |r| :: r[k].total == total && 0 < r[k].downloaded <= |Concat(chunks)|)
            && (forall j, k | 0 <= j < k < |r| :: r[j].downloaded < r[k].downloaded)
            && (r != [] ==> r[|r| - 1].downloaded == |Concat(chunks)|)
  {
    if chunks != [] {
      var init := chunks[..|chunks| - 1];
      ProgressReportsRise(init, total);
    }
  }

  /** The download gets as far as opening the staging file. */
  predicate Opens(reply: DownloadReply, canOpen: bool) {
    reply.Stream? && TotalSize(reply.contentLength).Some? && canOpen
  }

  /**
   * AppUpdater.download_update: streams the reply into the staging file,
   * calling back after each non-empty chunk when the size is known and a
   * callback is given. `file` is what the staging file holds afterwards
   * (None when it was never opened); on failure it may hold a partial download.
   */
  method DownloadUpdate(mode: DeploymentMode, reply: DownloadReply, canOpen: bool, hasCallback: bool)
    returns (ok: bool, savedPath: Option<Path>, file: Option<seq<byte>>, reports: seq<Progress>)
    ensures ok <==> Opens(reply, canOpen) && !reply.interrupted
    ensures file == if Opens(reply, canOpen) then Some(Concat(reply.chunks)) else None
    ensures reports == if Opens(reply, canOpen) && TotalSize(reply.contentLength).value != 0 && hasCallback
                       then ProgressReports(reply.chunks, TotalSize(reply.contentLength).value)
                       else []
    ensures savedPath == if ok then Some(DownloadSavePath(mode)) else None
    ensures forall k | 0 <= k < |reports| :: reports[k].total != 0
  {
    var savePath := DownloadSavePath(mode);
    ok, savedPath, file, reports := false, None, None, [];
    if reply.Failed? {
      return;
    }
    var totalSize := TotalSize(reply.contentLength);
    if totalSize.None? {
      return;
    }
    if !canOpen {
      return;
    }
    var chunks := reply.chunks;
    var report := totalSize.value != 0 && hasCallback;
    var written: seq<byte> := [];
    var downloaded: nat := 0;
    var i := 0;
    while i < |chunks|
      invariant 0 <= i <= |chunks|
      invariant written == Concat(chunks[..i])
      invariant downloaded == |written|
      invariant reports == if report then ProgressReports(chunks[..i], totalSize.value) else []
    {
      var chunk := chunks[i];
      assert chunks[..i + 1][..i] == chunks[..i];
      if chunk != [] {
        written := written + chunk;
        downloaded := downloaded + |chunk|;
        if report {
          reports := reports + [Progress(downloaded, totalSize.value)];
        }
      }
      i := i + 1;
    }
    assert chunks[..i] == chunks;
    if report {
      ProgressReportsRise(chunks, totalSize.value);
    }
    file := Some(written);
    if reply.interrupted {
      return;
    }
    ok, savedPath := true, Some(savePath);
  }

  // ---------------------------------------------------------------- install

  /** What install_update does, in order. */
  datatype InstallEvent =
    | QuitWindow
    | DestroyWindow
    | LaunchUpdater(path: Path)
    | ReportMissingUpdater
    | ReportInstallError
    | ExitProcess

  /** Where install_update expects updater.exe. */
  function InstallUpdaterPath(mode: DeploymentMode): Path {
    match mode
    case Frozen(exeDir, _) => Join(exeDir, UpdaterExeName)
    case Source(_) => Join(["dist"], UpdaterExeName)
  }

  /** The updater and the settings expect updater.exe in the same place. */
  lemma UpdaterPathsAgree(mode: DeploymentMode)
    ensures InstallUpdaterPath(mode) == Settings.UpdaterPath(mode)
  {
  }

  /**
   * AppUpdater.install_update: closes the window, starts updater.exe when it
   * exists, and exits; `fs` is the set of existing paths, `launchFails` says
   * that starting the process raises (which is caught, so no exit follows).
   */
  function InstallUpdate(mode: DeploymentMode, fs: set<Path>, launchFails: bool): (events: seq<InstallEvent>)
    ensures |events| >= 3 && events[0] == QuitWindow && events[1] == DestroyWindow
    ensures forall p :: LaunchUpdater(p) in events <==> p == Settings.UpdaterPath(mode) && p in fs
    ensures ExitProcess in events <==> !(Settings.UpdaterPath(mode) in fs && launchFails)
    ensures ExitProcess in events ==> events[|events| - 1] == ExitProcess
    ensures ReportMissingUpdater in events <==> Settings.UpdaterPath(mode) !in fs
    ensures ReportInstallError in events <==> Settings.UpdaterPath(mode) in fs && launchFails
    ensures |events| == 4
    ensures Settings.UpdaterPath(mode) in fs ==> events[2] == LaunchUpdater(Settings.UpdaterPath(mode))
  {
    var path := InstallUpdaterPath(mode);
    UpdaterPathsAgree(mode);
    [QuitWindow, DestroyWindow]
    + if path in fs then
        if launchFails then [LaunchUpdater(path), ReportInstallError] else [LaunchUpdater(path), ExitProcess]
      else [ReportMissingUpdater, ExitProcess]
  }
}
