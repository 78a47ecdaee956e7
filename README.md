# Alt Plugin Manager, modelled in Dafny

This project models the Obsidian plugin "Alt Plugin Manager". The plugin
keeps other Obsidian plugins up to date from their GitHub releases. It has
three parts, and each one is modelled in the form the source has:

- **The release checker** (`checkSinglePluginForUpdate`). It matches the
  plugin's repository URL against one fixed pattern and asks GitHub for the
  latest release. It takes the version from `tag_name`, or from `name` when
  the tag is falsy. When that version is `===` the recorded one, it stops.
  Otherwise it collects the release's assets into a `name -> id` record. It
  returns `null` plus one notice on every failure path except a
  response that is not ok, which is only logged.
  - In the model, the fetch is a parameter: a function from the request
    issued to the response.
  - A check yields the value returned, the notices shown and the request
    issued (`ReleaseChecker.Check`).
  - The asset loop and the checker itself are methods proved equal to the
    specification functions.
  - The URL pattern `/github.com[/:]([^/]+)\/([^/]+)(?:.git)?/i` is matched
    by a hand-written scanner (module `RepoUrl`). It is proved to find the
    leftmost position that the pattern, written out as a predicate,
    describes.
- **The plugin manager** (`main.ts`). `Manager.AltPluginManager` is a
  class. It holds the settings (`plugins`, `checkPeriodMinutes`,
  `autoInstall`) and the notices shown. It writes through
  `Manager.Vault`, a class holding the vault's files and folders and the
  paths written to.
  - The methods are the installer, the update pass, and the settings
    tab's buttons and fields.
  - Each method is proved to produce exactly the new state that a function
    on values in module `PluginManager` describes.
  - What the installer and the update pass guarantee is proved about
    those functions in `PluginManagerProperties`.
  - The update pass is written for any checker, a function from a plugin
    to the outcome of its check. `CheckForUpdates` runs it with
    `CheckerOf(fetchFn)`, which is the release checker's `Check` for that
    fetch; the checker's method form is proved equal to `Check` on its
    own.
- **The patch-version script** (`increment-patch-version.js`).
  `PatchVersion.BumpVersion` is the split / bump / join of a version
  string. `PatchVersion.PackageFiles` is the two JSON files, and its method
  runs the script's loop over them.

JavaScript semantics the plugin relies on are written out in `JsValues`
and `JsStrings`:
- truthiness, `||` and `===`;
- `String(v)`;
- `parseInt` with and without a radix: leading white space, a sign, a
  `0x` prefix when no radix is given, and the longest digit prefix;
- `split` on one character and `join`.

The source and its unit tests disagree in three places. The model follows
the source:
- A response that is not ok produces no notice, only a console message.
- The checker does not check that the required files are present.
- Only assets with a numeric `id` are collected. A release whose assets
  carry only download URLs therefore has "no downloadable assets".

The patch bump is modelled for every version string, including versions of
fewer than three pieces. These end in `NaN`, which is what the script
writes.

## Model

| member | source | states |
|---|---|---|
| RepoUrl.MatchAt | src/checkSinglePluginForUpdate.ts:23 | a match found at `i` satisfies the pattern there, with those groups; the `.` takes one UTF-16 code unit that is not a line terminator |
| RepoUrl.FindMatchFromFound | src/checkSinglePluginForUpdate.ts:23 | the match the search returns is the scanner's match at the position it reports |
| RepoUrl.FindMatchFromIsFirst | src/checkSinglePluginForUpdate.ts:23 | no position from `i` before the one returned matches, and none at all when nothing is returned |
| RepoUrl.MatchAtComplete | src/checkSinglePluginForUpdate.ts:23 | every position and groups the pattern describes are found by the scanner |
| RepoUrl.NoMatchIffNoPosition | src/checkSinglePluginForUpdate.ts:23-27 | the URL is unsupported exactly when no position satisfies the pattern |
| RepoUrl.MatchIsLeftmost | src/checkSinglePluginForUpdate.ts:23-28 | a match is the leftmost one; owner and repo are non-empty and free of `/` |
| RepoUrl.StripGitSuffix | src/checkSinglePluginForUpdate.ts:29 | the result is the repo minus a final `.git`, or the repo unchanged when it has none |
| RepoUrl.NoMatchWithoutG | src/checkSinglePluginForUpdate.ts:23 | no match starts at a character other than `g`/`G` |
| RepoUrl.NoMatchWithoutGFrom | src/checkSinglePluginForUpdate.ts:23 | a text with no `g`/`G` from `i` on has no match from `i` on |
| RepoUrl.FindSkips | src/checkSinglePluginForUpdate.ts:23 | the search passes over positions where nothing matches |
| ReleaseChecker.ReleaseHeaders | src/checkSinglePluginForUpdate.ts:31-32 | `Accept` is always the GitHub JSON type; `Authorization: Bearer <token>` is present iff the token is a non-empty string |
| ReleaseChecker.Decide | src/checkSinglePluginForUpdate.ts:36-63 | at most one notice; a result comes with no notice; a result comes only from an ok response carrying a release, with version `tag_name`, or `name` when the tag is falsy, and, for an update, the assets the loop collected; `updateAvailable` iff assets non-empty iff the version is not `===` the recorded one; a non-ok response gives `null` and no notice |
| ReleaseChecker.Check | src/checkSinglePluginForUpdate.ts:12-64 | no request iff the URL does not match, and then `null` with exactly the "Unsupported repo" notice; otherwise exactly the one latest-release request; a result carries the version and collected assets of the response to that request; the result properties of `Decide` |
| ReleaseChecker.CollectAssetIds | src/checkSinglePluginForUpdate.ts:45-52 | the in-place asset loop yields the record the specification function gives |
| ReleaseChecker.CheckSinglePluginForUpdate | src/checkSinglePluginForUpdate.ts:12-64 | the checker method produces exactly the outcome `Check` describes |
| ReleaseCheckerProperties.CollectFromSpec | src/checkSinglePluginForUpdate.ts:46-52 | the loop throws iff an element is `null`; otherwise the keys are exactly the names some entry records, each mapped to the id of its last entry |
| ReleaseCheckerProperties.CollectFromThrows | src/checkSinglePluginForUpdate.ts:46-48 | the loop throws iff an element is `null`, with the `TypeError` message |
| ReleaseCheckerProperties.CollectFromKeys | src/checkSinglePluginForUpdate.ts:46-52 | without a throw, the keys are those started with plus the names some entry records |
| ReleaseCheckerProperties.CollectFromLast | src/checkSinglePluginForUpdate.ts:46-52 | without a throw, each recorded name holds the id of the last entry recording it |
| ReleaseCheckerProperties.CollectFromUntouched | src/checkSinglePluginForUpdate.ts:46-52 | without a throw, a key no entry records keeps its value |
| ReleaseCheckerProperties.EmptyCollection | src/checkSinglePluginForUpdate.ts:45-52 | a non-array, or an array in which no entry records, gives the empty record |
| ReleaseCheckerProperties.UpToDateIgnoresAssets | src/checkSinglePluginForUpdate.ts:41-42 | an equal version gives "no update, no assets", whatever the assets are |
| ReleaseCheckerProperties.NoAssetsIsFailure | src/checkSinglePluginForUpdate.ts:53-57 | a new version with nothing collected gives `null` and the "no downloadable assets" notice |
| ReleaseCheckerProperties.ExceptionsBecomeNotices | src/checkSinglePluginForUpdate.ts:60-63 | a rejected fetch, a failing `json()`, a `null` body and a `null` asset each give `null` and one "Error checking" notice |
| ReleaseCheckerProperties.RecheckAfterRecording | src/checkSinglePluginForUpdate.ts:41-42 | after recording a reported version, the same release is "up to date" with the same request, unless the version is an object |
| ReleaseCheckerProperties.RedecideAfterRecording | src/checkSinglePluginForUpdate.ts:41-42 | the same response against the recorded version gives "no update" with no notice, unless the version is an object |
| ReleaseCheckerProperties.ReleaseUrlInjective | src/checkSinglePluginForUpdate.ts:30-35 | the request URL determines owner and repository |
| ReleaseCheckerProperties.TestUrlMatches | src/checkSinglePluginForUpdate.ts:23-29 | `https://github.com/owner/repo` matches at position 8 with groups `owner` and `repo` |
| ReleaseCheckerProperties.TestUrlRequest | src/checkSinglePluginForUpdate.ts:28-35 | that URL without a token gives a request to `/repos/owner/repo/releases/latest` with the `Accept` header only |
| ReleaseCheckerProperties.UnsupportedRepoScenario | src/checkSinglePluginForUpdate.ts:23-27 | a gitlab.com URL gives `null`, the "Unsupported repo" notice and no request |
| ReleaseCheckerProperties.AstralDotScenario | src/checkSinglePluginForUpdate.ts:23-27 | `github`, U+1F600, `com/a/b` is unsupported: that character is two code units where the pattern's `.` takes one |
| ReleaseCheckerProperties.FailedFetchScenario | src/checkSinglePluginForUpdate.ts:36-39 | a response that is not ok gives `null` and no notice |
| ReleaseCheckerProperties.UpToDateScenario | src/checkSinglePluginForUpdate.ts:41-42 | a recorded `v1.0.1` against tag `v1.0.1` gives no update and no assets |
| ReleaseCheckerProperties.UrlOnlyAssetsScenario | src/checkSinglePluginForUpdate.ts:48-57 | assets with download URLs but no ids give `null` and the "no downloadable assets" notice |
| ReleaseCheckerProperties.CollectNamed | src/checkSinglePluginForUpdate.ts:48-49 | an entry with a name and a numeric id is recorded under its name |
| ReleaseCheckerProperties.CollectIdAssets | src/checkSinglePluginForUpdate.ts:45-52 | the three named assets with ids 1, 2, 3 are all collected |
| ReleaseCheckerProperties.FoundAssetsAreUpdate | src/checkSinglePluginForUpdate.ts:41-59 | a release whose `tag_name`, or `name` when the tag is falsy, is not `===` the recorded version and whose assets collect to a non-empty record is reported as an update with that version and record, and no notice |
| ReleaseCheckerProperties.AssetIdsScenario | src/checkSinglePluginForUpdate.ts:45-59 | the three assets with ids are reported as an update carrying those ids |
| ReleaseCheckerProperties.SingleAssetScenario | src/checkSinglePluginForUpdate.ts:45-59 | a release with `main.js` alone is an update, since no required-file check is made |
| ReleaseCheckerProperties.BothVersionsUndefinedScenario | src/checkSinglePluginForUpdate.ts:41-42 | no tag and no name against no recorded version count as up to date |
| PluginManager.GetPluginFolderPath | main.ts:116-120 | the path is the base (or empty), then `/.obsidian/plugins/`, then the name |
| PluginManager.AfterMkdir | main.ts:83 | the folder is added unless its creation fails; nothing else changes |
| PluginManager.InstallSpec | main.ts:78-102 | only the installed entry may change, and only its version; a notice is always added |
| PluginManager.WriteFromAppendsNotices | main.ts:84-95 | the file loop only appends notices to those already shown |
| PluginManager.Visit | main.ts:51-63 | a round changes no entry other than the one it visits |
| PluginManager.PassThrough | main.ts:51-64 | the rounds keep the length of the plugin list |
| PluginManager.Pass | main.ts:45-71 | the whole pass keeps the length of the plugin list |
| PluginManager.Spliced | main.ts:159 | the entry at `idx` is removed; earlier entries stay, later ones move down by one; an index past the end changes nothing |
| PluginManager.NewCheckPeriod | main.ts:192-198 | the period becomes `parseInt(val)` exactly when that is a positive number; otherwise it is unchanged |
| PluginManagerProperties.FolderPathInjective | main.ts:116-120 | different plugin names give different folders |
| PluginManagerProperties.TargetPathInjective | main.ts:94 | within a folder, different file names give different paths |
| PluginManagerProperties.RequiredFilesDistinct | main.ts:80 | the three required file names are distinct |
| PluginManagerProperties.TargetsAreTargetPaths | main.ts:84-94 | every path the loop writes is `folder/file` for one of its files |
| PluginManagerProperties.FirstFailureIsFirst | main.ts:84-95 | no file before the first throwing write throws |
| PluginManagerProperties.WriteFromThrown | main.ts:84-95 | the loop's error is that of the first throwing write, or none |
| PluginManagerProperties.WriteFromNotices | main.ts:84-92 | the notices are the skip notices of the files processed, in order |
| PluginManagerProperties.WriteFromAttempts | main.ts:84-94 | the paths attempted are those of the downloaded files processed, in order |
| PluginManagerProperties.WriteFromOutcome | main.ts:84-95 | the loop goes up to and including the first throwing write; skipped files get notices in order; downloaded files are written in order; the error is that of the first throwing write |
| PluginManagerProperties.WriteFromFrame | main.ts:84-95 | no path other than those of downloaded files is changed |
| PluginManagerProperties.WriteFromContents | main.ts:85-94 | without a throw, each downloaded file holds its content and each skipped one is left as it was |
| PluginManagerProperties.InstallOutcome | main.ts:78-102 | the version is recorded iff no write throws; the notices are the skip notices, then "Updated" or one "Error installing"; writes go to the required files in order, up to the first throwing one |
| PluginManagerProperties.InstallTouchesOnlyRequiredFiles | main.ts:80-94 | no vault path other than the three required files of the folder changes |
| PluginManagerProperties.InstallWritesDownloads | main.ts:84-97 | without a throw, each downloaded required file holds its content and each failed download is left alone |
| PluginManagerProperties.MkdirFailureIgnored | main.ts:83 | whether the folder creation fails affects nothing but the folders |
| PluginManagerProperties.VisitRecords | main.ts:58-63 | a round changes only the visited entry's version, and only to the reported version, with `autoInstall` set |
| PluginManagerProperties.VisitWithoutAutoInstall | main.ts:58-63 | without `autoInstall`, a round adds the check's notices and, for an update, the "Update available" notice, and changes nothing else |
| PluginManagerProperties.VisitInstalls | main.ts:58-60 | with `autoInstall`, a reported update is installed after the check's notices |
| PluginManagerProperties.VisitWithoutUpdate | main.ts:53-63 | a round without a reported update only adds the check's notices |
| PluginManagerProperties.PassKeepsLater | main.ts:51-64 | entries not yet visited are unchanged |
| PluginManagerProperties.PassOnlyRecordsVersions | main.ts:51-64 | the pass changes only versions of visited entries, each to its reported update, and only with `autoInstall` |
| PluginManagerProperties.PassWithoutAutoInstall | main.ts:51-64 | without `autoInstall`, the pass changes nothing but the notices |
| PluginManagerProperties.PassWithoutUpdates | main.ts:51-64 | when no check reports an update, the pass only adds the checks' notices, in list order |
| PluginManagerProperties.PassKeepsEntriesNamed | main.ts:51-64 | a pass keeps every entry named and with a URL |
| PluginManagerProperties.SplicedRemovesOne | main.ts:159 | deleting removes exactly one occurrence of the entry at `idx` |
| PluginManagerProperties.SplicedKeepsEntriesNamed | main.ts:159 | deleting keeps every entry named and with a URL |
| PluginManagerProperties.CheckPeriodFromDigits | main.ts:193-197 | text starting with digits sets the period to their value when it is positive |
| PluginManagerProperties.CheckPeriodIgnoresNegative | main.ts:193-197 | a negative number leaves the period unchanged |
| PluginManagerProperties.CheckPeriodIgnoresText | main.ts:193-197 | text that is not a number leaves the period unchanged |
| PluginManagerProperties.CheckPeriodAcceptsEveryPositive | main.ts:193-197 | every positive number typed becomes the period |
| Manager.Vault.Mkdir | main.ts:83 | the folder is created unless its creation fails, and the failure is reported |
| Manager.Vault.WriteBinary | main.ts:94 | the path is logged; the write either throws its error and changes nothing, or stores the data |
| Manager.AltPluginManager.constructor | main.ts:15-19 | no plugins, a 60-minute period, no automatic installation |
| Manager.AltPluginManager.InstallPluginUpdate | main.ts:78-102 | the new state is the one `InstallSpec` describes; the settings are unchanged |
| Manager.AltPluginManager.WriteFiles | main.ts:84-95 | the loop over the files yields the files, notices, writes and error that `WriteFrom` describes; plugins, folders and settings are unchanged |
| Manager.AltPluginManager.CheckForUpdates | main.ts:45-71 | the new state is the one `Pass` describes, for the checker with the given fetch |
| Manager.AltPluginManager.RunPass | main.ts:51-64 | the loop over the plugins yields the state `Pass` describes, for the checker given; the settings are unchanged |
| Manager.AltPluginManager.VisitPlugin | main.ts:52-63 | the new state is the one `Visit` describes, for the checker given |
| Manager.AltPluginManager.CheckPluginNow | main.ts:163-169 | only the check's notices are added; the result is dropped |
| Manager.AltPluginManager.AddPlugin | main.ts:178-186 | without a name or URL only the "required" notice is added; otherwise exactly one entry is appended at the end; entries stay named |
| Manager.AltPluginManager.DeletePlugin | main.ts:158-162 | the list becomes `Spliced(plugins, idx)`; entries stay named |
| Manager.AltPluginManager.SetCheckPeriod | main.ts:192-198 | the period becomes `NewCheckPeriod(period, val)` |
| Manager.AltPluginManager.SetAutoInstall | main.ts:202-205 | the flag becomes the toggle's value and nothing else changes |
| JsValues.NatToDecimal | increment-patch-version.js:7-8 | the rendering is digits only, has no leading zero and reads back as the number |
| JsStrings.Split | increment-patch-version.js:6 | the pieces are non-empty as a list, hold no separator, and join back to the string |
| JsStrings.SplitPrefix | increment-patch-version.js:6 | a separator-free prefix is glued onto the first piece of the rest |
| JsStrings.SplitJoin | increment-patch-version.js:6-8 | splitting undoes joining pieces without a separator |
| JsStrings.ParseIntReadsDigits | main.ts:193 | `parseInt` reads a leading digit run and ignores what follows |
| JsStrings.ParseIntReadsNegative | main.ts:193 | a minus sign before a digit run negates it |
| JsStrings.ParseIntRejectsNonDigit | main.ts:193-194 | text starting with neither space, sign nor digit is `NaN` |
| JsStrings.ParseIntReadsDecimal | main.ts:193 | `parseInt` reads back the decimal rendering of a natural number |
| PatchVersion.NextPatch | increment-patch-version.js:7 | the new third piece holds no dot |
| PatchVersion.NextPatchOf | increment-patch-version.js:7 | a third piece read as `n` becomes `String(n + 1)` |
| PatchVersion.BumpShape | increment-patch-version.js:6-8 | the new version has max(n, 3) pieces; every old piece but the third is kept; the third is the bumped number; a dotless version gains an empty second piece |
| PatchVersion.BumpReadsDigits | increment-patch-version.js:6-8 | a third piece starting with digits becomes their value plus one, without leading zeros, dropping the rest of the piece; other pieces are kept |
| PatchVersion.BumpRelease | increment-patch-version.js:6-8 | `a.b.c` becomes `a.b.(c+1)` |
| PatchVersion.BumpThree | increment-patch-version.js:6-8 | a three-piece version keeps its first two pieces and gets the bumped third |
| PatchVersion.BumpTwice | increment-patch-version.js:6-8 | two runs add two to the patch number |
| PatchVersion.BumpNegativePatch | increment-patch-version.js:7 | a negative third piece `-d` becomes `1 - d` |
| PatchVersion.NegativePatch | increment-patch-version.js:7 | `parseInt("-d", 10) + 1` renders as `1 - d` |
| PatchVersion.BumpNonNumericPatch | increment-patch-version.js:7-8 | a third piece that is not a number becomes `NaN` |
| PatchVersion.BumpTwoPieces | increment-patch-version.js:6-8 | `a.b` becomes `a.b.NaN` |
| PatchVersion.BumpOnePiece | increment-patch-version.js:6-8 | `a` becomes `a..NaN` |
| PatchVersion.BumpFrom | increment-patch-version.js:4-11 | the set of files is kept; the console output only grows |
| PatchVersion.BumpFromOnlyVersions | increment-patch-version.js:5-9 | every document keeps its kind, its fields and every field but `version`; a changed document had a string version |
| PatchVersion.IncrementOutcome | increment-patch-version.js:2-11 | `manifest.json` is bumped and logged, then `package.json`; the first file that cannot be bumped stops the script, and it and later files are unchanged |
| PatchVersion.PackageFiles.IncrementPatchVersion | increment-patch-version.js:4-11 | the files, the console output and the file it stops on are those `BumpFrom` describes |

## Left out

- The Obsidian UI is not modelled: the ribbon icon, the status bar, the
  settings-tab rendering and the unused sample modal. Notices are kept as
  a list of the texts shown.
- Timers are not modelled: the start-up check, the periodic check, and the
  status bar's removal. Two passes started by different triggers can
  overlap in the source; the model runs each pass to completion.
- The network is a parameter:
  - `fetch` is a function from the request to the response;
  - `nonCorsGetHtml` is a function from the asset locator to the text, or
    `None` when `requestUrl` fails.
  Within one pass the same request is assumed to get the same answer.
- The locator handed to the downloader is whatever the asset record
  holds. The checker stores numeric asset ids there, not URLs. What
  `requestUrl` makes of such a value is outside the model.
- `TextEncoder` is not modelled: the text is written as it was
  downloaded.
- Settings persistence is not modelled: `loadData`, `saveData` and
  `saveSettings` are assumed never to fail.
- Console messages (`console.log`, `console.warn`, `console.error`) are not
  modelled. The exception is the version script's "Updated" lines, which
  are its only output.
- Manager.AltPluginManager.CheckForUpdates: the `catch` around the pass is
  not modelled. In the model neither the checker nor the installer
  throws: the checker catches everything itself, and the installer
  catches write errors.
- Manager.Vault.WriteBinary: a write that throws is assumed to leave the
  file unchanged; partial writes are not modelled.
- Numbers are integers. Fractional numbers and precision loss beyond
  2^53 are not modelled: in `parseInt`, in `+ 1` of the version script,
  and in `String(n)` for very large values.
- JSON parsing and formatting are not modelled. A file is a datatype:
  unparsable, not an object, or an object with fields. Key order,
  indentation and the trailing newline are not kept. Only what the
  script reads, the `version` field, is modelled.
- PatchVersion.PackageFiles.IncrementPatchVersion: errors when reading
  or writing a file are not modelled. A missing file stops the script
  like any other exception. Writes are assumed to succeed.
- Regular expressions in general are not modelled; only the one pattern
  the checker uses is matched.
