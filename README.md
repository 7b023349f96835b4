# Template Helper: self-update, settings and template store, in Dafny

A model of three pieces of the Template Helper desktop application (a
clipboard-template manager with a self-updater):

- **Self-update decision logic** (`utils/updater.py`, modules `Versions` and
  `Updater`): how dotted version strings are compared, which version is
  running, what the latest GitHub release offers, whether an update is
  offered, how the new executable is streamed to a staging file with progress
  reports, and what the install step does (close the window, start
  `updater.exe` if it exists, exit).
- **Application settings** (`config/settings.py`, module `Settings`): the
  release endpoint and download URLs, the deployment-dependent paths of
  `version.json`, `updater.exe` and the icon, and the two template
  collections with their files.
- **Template store** (`models/template_manager.py`, module `Templates`): the
  class `TemplateManager`, an insertion-ordered dictionary from category name
  to a list of `{title, text}` templates, changed in place by guarded
  operations that report success and save after each change.

How the program was started (`sys.frozen`, `sys._MEIPASS`, `sys.executable`,
`__file__`) is one value, `Deployment.DeploymentMode`: `Frozen(exeDir,
meipass)` or `Source(root)`. Paths are lists of components (`Path(p) / name`
is `p + [name]`). The network replies, the content of `version.json`, the
template files on disk and the set of existing paths are parameters. Saving
the templates is recorded as an event in the field `saved`.

Three behaviours of the code that the model keeps as written:

- Versions of unequal length are compared as Python compares lists (a proper
  prefix is older, so `1.0` is older than `1.0.0`), not by zero padding.
- `install_update` exits even when `updater.exe` is missing; only an error
  raised while starting it stops the exit.
- "Exactly one of two different versions is newer" holds for the integer
  lists, not for the strings: `1.0` and `1.00` are different strings, and
  neither is newer than the other (`Versions.CompareTotal`).

## Model

| member | source | states |
|---|---|---|
| Settings.ApiUrl | config/settings.py:18-21 | the endpoint is `https://api.github.com/repos/teja1337/HelperTemplates/releases/latest` |
| Settings.ReleaseUrl | config/settings.py:23-26 | the release URL is the fixed prefix, `v`, the version and `/Helper.exe`: reading the version back out of it gives the version |
| Settings.ReleaseUrlOnto | config/settings.py:23-26 | every URL of that shape is the release URL of the version it contains |
| Settings.VersionPath | config/settings.py:45-58 | the file is `version.json`; its folder (bundle folder, else executable folder, else project root) is fixed by the body, and `Updater.VersionPathsAgree` ties it to the updater's own rule |
| Settings.IconCandidates | config/settings.py:65-79 | two candidates when frozen with a bundle folder, one otherwise; each is an `icon.ico`; when frozen the executable's folder comes first |
| Settings.UpdaterPath | config/settings.py:84-92 | the file is `updater.exe`; its folder (beside the executable, or `dist`) is fixed by the body, and `Updater.UpdaterPathsAgree` ties it to install_update's rule |
| Settings.ExistingOnly | config/settings.py:81-82 | the kept paths are exactly the candidates that exist, in their original order, each kept as many times as it occurs among the candidates |
| Settings.GetIconPaths | config/settings.py:60-82 | the icon paths are the existing ones among: the executable's folder then the bundle folder when frozen, the project root from source; the executable's icon comes first when it exists |
| Settings.AppDataDir | config/settings.py:33 | the data directory is the `Helper` folder directly under `%APPDATA%` |
| Settings.CategoryTypes | config/settings.py:101-104 | the collections are Clients and Colleagues, two different names, Clients first |
| Settings.FilePath | config/settings.py:106-113 | a collection name has a file inside the data directory; any other name has none |
| Settings.FilePathsDistinct | config/settings.py:35-37 | the two collections are stored in different files |
| Versions.Split | utils/updater.py:92-93 | `split('.')` yields at least one piece and no piece contains a dot |
| Versions.JoinSplit | utils/updater.py:92-93 | joining the pieces with dots gives back the string |
| Versions.SplitJoin | utils/updater.py:92-93 | splitting dot-free pieces joined with dots gives back the pieces |
| Versions.ParseSegment | utils/updater.py:92 | `int(piece)` succeeds iff the piece is a non-empty string of decimal digits |
| Versions.ParseSegmentCanonical | utils/updater.py:92 | a digit string without leading zeros is the decimal form of the number read from it |
| Versions.ParseVersion | utils/updater.py:92-93 | `[int(x) for x in s.split('.')]`; no contract of its own: the body composes `Versions.Split` and `Versions.ParseSegments`, whose contracts fix it, and `Versions.ParsedVersionLength` states its length |
| Versions.ParsedVersionLength | utils/updater.py:92-93 | a version that parses has one integer per dot-separated piece, so it is never the empty list |
| Versions.ParseSegments | utils/updater.py:92-93 | the integer list exists iff every piece is a digit string, and then holds each piece's value in order |
| Versions.ParseFormat | utils/updater.py:92-93 | every list of integers written in dotted form is read back as that list |
| Versions.LexLessIff | utils/updater.py:94 | the recursive comparison is Python's list order: first difference decides, a proper prefix is smaller |
| Versions.CompareVersions | utils/updater.py:88-96 | "newer" iff both strings parse and the remote list is greater than the local list in Python's list order |
| Versions.CompareMalformed | utils/updater.py:91-96 | a piece that is not an integer on either side (an empty piece included) gives false |
| Versions.CompareIrreflexive | utils/updater.py:92-94 | no version is newer than itself |
| Versions.CompareAsymmetric | utils/updater.py:92-94 | if b is newer than a, a is not newer than b |
| Versions.CompareTransitive | utils/updater.py:92-94 | newer-than is transitive |
| Versions.CompareTotal | utils/updater.py:92-94 | of two valid versions with different integer lists, exactly one is newer |
| Versions.ShorterPrefixIsOlder | utils/updater.py:92-94 | `1.0` is older than `1.0.0`, and not the other way round |
| Versions.SampleComparisons | utils/updater.py:92-94 | 1.0.1 is newer than 1.0.0, 1.1.9 is not newer than 1.2.0, 1.0.0 is newer than 0.9.9 |
| Versions.SampleMalformed | utils/updater.py:91-96 | `abc` and `1..2` are never newer nor older than anything |
| Updater.GetLocalVersion | utils/updater.py:28-58 | a non-empty built-in version wins; otherwise the `version` field of version.json (0.0.0 when the field is absent); 0.0.0 when the file cannot be read |
| Updater.LocalVersionPath | utils/updater.py:38-47 | where get_local_version looks for version.json; no contract of its own: the body fixes it, and `Updater.VersionPathsAgree` equates it with the settings' path |
| Updater.BuiltInVersionIgnoresFiles | utils/updater.py:31-34 | with a non-empty built-in version the result depends on no file and no deployment mode |
| Updater.VersionPathsAgree | utils/updater.py:38-47 | the updater reads version.json where the settings place it: bundle folder, else executable folder, else project root |
| Updater.ReleaseApiUrl | utils/updater.py:64 | the endpoint get_remote_version queries; no contract of its own: `Updater.ApiUrlsAgree` equates it with the settings' endpoint |
| Updater.ApiUrlsAgree | utils/updater.py:64 | the updater queries the endpoint the settings name |
| Updater.StripLeadingV | utils/updater.py:70 | the tag loses exactly its leading run of `v` characters and nothing else |
| Updater.FirstArtifactUrl | utils/updater.py:72-77 | the URL is that of the first asset named `Helper.exe`, and none exists iff no asset has that name |
| Updater.FindArtifactUrl | utils/updater.py:72-77 | the scan that stops at the first match returns the first `Helper.exe` URL |
| Updater.GetRemoteVersion | utils/updater.py:60-86 | a release is returned iff the reply arrived and its first `Helper.exe` URL is non-empty; without such an asset nothing is returned whatever the tag; the version is the tag without leading `v`s, 0.0.0 when there is no tag |
| Updater.EmptyIsNeverNewer | utils/updater.py:145 | an empty remote version is never newer, so the truthiness test adds nothing to the comparison |
| Updater.CheckForUpdates | utils/updater.py:139-148 | an update is offered iff a usable release exists and is newer than the running version; then with its version and a non-empty URL; otherwise (false, running version, no URL); never when the endpoint failed |
| Updater.UpdateOffered | utils/updater.py:139-148 | running 1.0.0 with release v1.1.0 carrying Helper.exe offers (true, 1.1.0, its URL) |
| Updater.OlderReleaseIgnored | utils/updater.py:139-148 | running 2.0.0 with release v1.9.9 gives (false, 2.0.0, no URL) |
| Updater.DownloadSavePath | utils/updater.py:104-108 | the staging file beside the executable, or in the working directory from source; no contract of its own: the body fixes it, and `Updater.SavePathNamesUpdateFile` names the file |
| Updater.TotalSize | utils/updater.py:117 | the size is 0 without a `content-length` header and otherwise the header read as `int()` reads it; no contract of its own, the body composes `Versions.ParseSegment` |
| Updater.SavePathNamesUpdateFile | utils/updater.py:104-108 | the staging file is the file the settings name `Helper_update.exe` |
| Updater.ProgressReportsRise | utils/updater.py:122-129 | one report per non-empty chunk, each carrying the total, strictly rising, never past the bytes written, the last one equal to them |
| Updater.DownloadUpdate | utils/updater.py:98-137 | succeeds iff the reply streams, its length header parses, the file opens and the stream is not cut; the file then holds every received byte in order; progress is reported only with a non-zero size and a callback; the save path is returned only on success |
| Updater.InstallUpdaterPath | utils/updater.py:158-162 | where install_update expects `updater.exe`; no contract of its own: `Updater.UpdaterPathsAgree` equates it with the settings' path |
| Updater.UpdaterPathsAgree | utils/updater.py:158-162 | the updater starts `updater.exe` from where the settings place it: beside the executable, or `dist/` from source |
| Updater.InstallUpdate | utils/updater.py:150-172 | exactly four steps: the window is closed first; `updater.exe` is started iff it exists, and then once, as the third step; the process exits (as the last step) unless starting it raised; a missing updater is reported, and an install error is reported iff starting it raised |
| Templates.CategoryFiles | models/template_manager.py:16-19 | exactly the two collections, each with its own file inside the data directory |
| Templates.CategoryFilesAgree | models/template_manager.py:16-19 | the store's collections and files are the settings' collections and files |
| Templates.DefaultCatalog | models/template_manager.py:39-55 | the demo content is well formed: Greeting and Farewell for Clients, Chat for Colleagues, one template each |
| Templates.Without | models/template_manager.py:99-100 | removing a key keeps every other key, keeps the order free of repeats, and changes nothing when the key is absent |
| Templates.WithoutAt | models/template_manager.py:99-100 | removing a key closes its gap: the keys before and after it stay in order |
| Templates.AddThenDeleteCategory | models/template_manager.py:81-103 | deleting a category just added gives back the dictionary it was added to, order included |
| Templates.RenameBack | models/template_manager.py:89-95 | renaming and renaming back restores every list; the category ends up last |
| Templates.TemplateManager.CurrentFile | models/template_manager.py:23-25 | the current collection's file, inside the data directory and not the other collection's file |
| Templates.TemplateManager.constructor | models/template_manager.py:8-21 | a new store shows the Clients collection: its file's dictionary, or the demo content saved once when the file is missing, cannot be read or is not JSON; it is built only for a file whose reading does not raise |
| Templates.TemplateManager.Create | models/template_manager.py:8-21 | creating the store yields no store iff the Clients file is not UTF-8 (the decode error propagates); otherwise a fresh store as the constructor describes |
| Templates.TemplateManager.LoadTemplates | models/template_manager.py:27-37 | the decoded file replaces the dictionary without saving; a missing, unreadable or non-JSON file installs the demo content and saves it; a non-UTF-8 file raises, leaving the dictionary and the saves unchanged |
| Templates.TemplateManager.CreateDefaultTemplates | models/template_manager.py:39-56 | the current collection's demo content replaces the dictionary and is saved once |
| Templates.TemplateManager.SaveTemplates | models/template_manager.py:58-65 | one save of the current dictionary to the current collection's file |
| Templates.TemplateManager.SetCategoryType | models/template_manager.py:67-71 | an unknown collection name changes nothing; a known one becomes current and is loaded; it raises iff the name is known and its file is not UTF-8, and then the switch has happened but the dictionary is the old one |
| Templates.TemplateManager.GetCategoryTypes | models/template_manager.py:73-75 | the collection names are those of the settings, in the same order |
| Templates.TemplateManager.GetCategories | models/template_manager.py:77-79 | the key order that every mutator keeps in insertion order, each category exactly once |
| Templates.TemplateManager.GetTemplates | models/template_manager.py:105-107 | a category's templates, the empty list for an unknown category |
| Templates.TemplateManager.AddCategory | models/template_manager.py:81-87 | succeeds iff the name is non-empty and new; then an empty list is added last, all else is unchanged, one save; on failure nothing changes and nothing is saved |
| Templates.TemplateManager.RenameCategory | models/template_manager.py:89-95 | succeeds iff the old name exists and the new one is non-empty and free (so renaming to itself fails); the old list moves under the new name at the end, one save; otherwise no change |
| Templates.TemplateManager.DeleteCategory | models/template_manager.py:97-103 | removes exactly that category and keeps the others in order, one save; fails with no change when it is absent |
| Templates.TemplateManager.AddTemplate | models/template_manager.py:109-115 | appends the template to an existing category, other categories untouched, one save; fails with no change otherwise |
| Templates.TemplateManager.EditTemplate | models/template_manager.py:117-123 | succeeds iff the category exists and 0 <= index < its length; replaces only that element, one save |
| Templates.TemplateManager.DeleteTemplate | models/template_manager.py:125-131 | same guard; removes that element and shifts the later ones down, one save |

## Left out

- Network and TLS: `requests.get` (with certificate checks off), timeouts and `raise_for_status` are not modelled; a reply is either a failure value or its decoded content.
- JSON decoding and file I/O: version.json and the template files are given as already-decoded values (`Updater.VersionFile`, `Templates.StoredFile`); a `null` tag or a malformed asset entry (a `KeyError`) is folded into the failed reply rather than modelled separately. A `version` field in version.json that is not a string (`null`, a number) cannot be expressed in `Updater.VersionFile`; in the program it is returned as it is, `compare_versions` swallows the resulting error, and the update check yields (false, that value, no URL).
- Versions.ParseSegment: Python's `int()` also accepts surrounding whitespace, a sign, underscores between digits and non-ASCII Unicode decimal digits (Arabic-Indic `"١"`, fullwidth `"１"` and the like), and from Python 3.11 on it rejects a digit string longer than 4300 digits (`sys.int_info.default_max_str_digits`), which the model reads as a number; the model accepts plain ASCII digit strings only, so `" 1"`, `"+1"`, `"1_0"` or `"１"` count as malformed here. The same applies to the `content-length` header in `Updater.TotalSize`.
- Updater.DownloadUpdate: the percentage `downloaded / total * 100` is a float; the model reports the pair (downloaded, total) instead. It may exceed 100 when the header understates the body; nothing bounds it.
- Updater.InstallUpdate: process control (`subprocess.Popen`, `sys.exit`, `quit`/`destroy` of the window) is modelled as the sequence of events, not as process semantics; an error raised by `quit` or `destroy` is not modelled.
- Templates.TemplateManager.SaveTemplates: a failed write raises out of every mutator after the in-memory change; saving is modelled as always succeeding.
- Templates.TemplateManager.GetTemplates: Python returns the stored list itself, so a caller could change it in place; the model returns a value.
- Templates.TemplateManager.constructor: a Dafny constructor cannot raise, so it is stated only for a Clients file whose reading does not raise; the raising case of `TemplateManager()` is `Templates.TemplateManager.Create` returning no store. Also, creating the data directory (`os.makedirs`) and reading `%APPDATA%` are I/O; the data directory is a parameter.
- A decoded template file is assumed to be a dictionary of lists of templates (the `requires` on loading); other JSON shapes are not modelled.
- Concurrency: the update check and the download run on background threads in the UI; the model is sequential.
- The UI (`views/main_window.py`), including its own version reader that defaults to `0.0.1` rather than the updater's `0.0.0`, and the build and diagnostic scripts are not part of this model.
