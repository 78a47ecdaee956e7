/**
 * The installer and the update pass of the plugin manager (main.ts), as
 * functions on values.  The classes in alt_plugin_manager.dfy are proved
 * against these functions; the lemmas about them are in
 * plugin_manager_properties.dfy.
 */
module PluginManager {
  import opened Wrappers
  import opened JsValues
  import opened JsStrings
  import opened ReleaseChecker

  /** Directory of installed plugins below the vault root. */
  const PluginsDir := "/.obsidian/plugins/"

  /** `${base}/.obsidian/plugins/${pluginName}`, where `base` is the
      adapter's `basePath` or `""` when it has none (or an empty one). */
  function GetPluginFolderPath(basePath: Option<string>, pluginName: string): (path: string)
    ensures |path| == |basePath.GetOr("")| + |PluginsDir| + |pluginName|
    ensures path[..|basePath.GetOr("")|] == basePath.GetOr("")
    ensures path[|path| - |pluginName|..] == pluginName
    ensures path[|path| - |pluginName| - 1] == '/'
  {
    basePath.GetOr("") + PluginsDir + pluginName
  }

  /** The vault path `${pluginFolder}/${file}` a file is written to. */
  function TargetPath(folder: string, file: string): string {
    folder + "/" + file
  }

  /** The files an update consists of, in the order they are fetched. */
  const RequiredFiles := ["main.js", "styles.css", "manifest.json"]

  /** `updateInfo.assets[file]`: the recorded locator of `file`, or
      `undefined` when the release did not carry it. */
  function Locator(assets: map<string, JsValue>, file: string): JsValue {
    if file in assets then assets[file] else Undefined
  }

  /** `fileContent` is truthy: the download neither failed (`null`) nor
      came back empty. */
  predicate Downloaded(content: Option<string>) {
    content.Some? && content.value != ""
  }

  function FailedDownloadNotice(file: string, name: string): string {
    "Failed to download " + file + " for " + name
  }

  function UpdatedNotice(name: string, version: JsValue): string {
    "Updated " + name + " to " + ToJsString(version)
  }

  function InstallErrorNotice(name: string, error: string): string {
    "Error installing update for " + name + ": " + error
  }

  function UpdateAvailableNotice(name: string, version: JsValue): string {
    "Update available for " + name + ": " + ToJsString(version)
  }

  /** What the file loop has produced so far: the vault's files, the
      notices shown, every path a write was attempted on, and the error of
      a write that threw. */
  datatype InstallState = InstallState(
    files: map<string, string>,
    notices: seq<string>,
    attempts: seq<string>,
    thrown: Option<string>)

  /** The file loop of the installer over `fileNames`, from state `s`:
      a file whose download is falsy gets a notice and is skipped; any
      other is written, and a write to a path in `writeErrors` throws,
      which leaves the loop with the remaining files untouched. */
  function WriteFrom(folder: string, name: string, fileNames: seq<string>, assets: map<string, JsValue>,
                     download: JsValue -> Option<string>, writeErrors: map<string, string>,
                     s: InstallState): (r: InstallState)
    requires s.thrown.None?
    decreases |fileNames|
  {
    if fileNames == [] then s
    else
      var file := fileNames[0];
      var content := download(Locator(assets, file));
      if !Downloaded(content) then
        WriteFrom(folder, name, fileNames[1..], assets, download, writeErrors,
                  s.(notices := s.notices + [FailedDownloadNotice(file, name)]))
      else
        var path := TargetPath(folder, file);
        if path in writeErrors then
          s.(attempts := s.attempts + [path], thrown := Some(writeErrors[path]))
        else
          var r := WriteFrom(folder, name, fileNames[1..], assets, download, writeErrors,
                             s.(files := s.files[path := content.value], attempts := s.attempts + [path]));
          r
  }

  /** The file loop only appends notices. */
  lemma {:induction false} WriteFromAppendsNotices(folder: string, name: string, fileNames: seq<string>,
                                                   assets: map<string, JsValue>, download: JsValue -> Option<string>,
                                                   writeErrors: map<string, string>, s: InstallState)
    requires s.thrown.None?
    ensures var r := WriteFrom(folder, name, fileNames, assets, download, writeErrors, s);
            |s.notices| <= |r.notices| && r.notices[..|s.notices|] == s.notices
    decreases |fileNames|
  {
    if fileNames != [] {
      var file := fileNames[0];
      var content := download(Locator(assets, file));
      if !Downloaded(content) {
        var s1 := s.(notices := s.notices + [FailedDownloadNotice(file, name)]);
        WriteFromAppendsNotices(folder, name, fileNames[1..], assets, download, writeErrors, s1);
        var r := WriteFrom(folder, name, fileNames[1..], assets, download, writeErrors, s1);
        assert r.notices[..|s1.notices|][..|s.notices|] == r.notices[..|s.notices|];
      } else if TargetPath(folder, file) !in writeErrors {
        var path := TargetPath(folder, file);
        WriteFromAppendsNotices(folder, name, fileNames[1..], assets, download, writeErrors,
                                s.(files := s.files[path := content.value], attempts := s.attempts + [path]));
      }
    }
  }

  /** The parts of the environment that never change: the adapter's base
      path, the paths whose write throws (with the rendering of the
      error), and the folders whose creation fails. */
  datatype VaultEnv = VaultEnv(basePath: Option<string>, writeErrors: map<string, string>, mkdirErrors: set<string>)

  /** Everything the plugin manager changes: the settings' plugin list,
      the vault's files and folders, the paths written to, and the notices
      shown. */
  datatype World = World(
    plugins: seq<ManagedPlugin>,
    files: map<string, string>,
    folders: set<string>,
    attempts: seq<string>,
    notices: seq<string>)

  /** The folder is created unless its creation fails; the failure is
      swallowed. */
  function AfterMkdir(env: VaultEnv, folders: set<string>, folder: string): (r: set<string>)
    ensures folders <= r && r <= folders + {folder}
    ensures folder in r <==> folder in folders || folder !in env.mkdirErrors
  {
    if folder in env.mkdirErrors then folders else folders + {folder}
  }

  /**
   * `installPluginUpdate` for the plugin at `idx`: the files are written
   * as `WriteFrom` says; then, unless a write threw, the plugin records the
   * installed version and a success notice follows, and otherwise a single
   * error notice follows and the record is left alone.  No other entry of
   * the plugin list changes.
   */
  function InstallSpec(env: VaultEnv, w: World, idx: nat, info: UpdateInfo,
                       download: JsValue -> Option<string>): (w': World)
    requires idx < |w.plugins|
    ensures |w'.plugins| == |w.plugins|
    ensures forall j :: 0 <= j < |w.plugins| && j != idx ==> w'.plugins[j] == w.plugins[j]
    ensures w'.plugins[idx] == w.plugins[idx] || w'.plugins[idx] == w.plugins[idx].(latestVersion := info.latestVersion)
    ensures |w.notices| < |w'.notices| && w'.notices[..|w.notices|] == w.notices
  {
    var plugin := w.plugins[idx];
    var folder := GetPluginFolderPath(env.basePath, plugin.name);
    var r := WriteFrom(folder, plugin.name, RequiredFiles, info.assets, download, env.writeErrors,
                       InstallState(w.files, w.notices, w.attempts, None));
    WriteFromAppendsNotices(folder, plugin.name, RequiredFiles, info.assets, download, env.writeErrors,
                            InstallState(w.files, w.notices, w.attempts, None));
    var folders := AfterMkdir(env, w.folders, folder);
    assert (r.notices + [UpdatedNotice(plugin.name, info.latestVersion)])[..|w.notices|] == r.notices[..|w.notices|];
    match r.thrown
    case None =>
      World(w.plugins[idx := plugin.(latestVersion := info.latestVersion)], r.files, folders, r.attempts,
            r.notices + [UpdatedNotice(plugin.name, info.latestVersion)])
    case Some(e) =>
      assert (r.notices + [InstallErrorNotice(plugin.name, e)])[..|w.notices|] == r.notices[..|w.notices|];
      World(w.plugins, r.files, folders, r.attempts, r.notices + [InstallErrorNotice(plugin.name, e)])
  }

  /** `checkSinglePluginForUpdate` with `fetchFn` as its fetch, as the
      update pass calls it for each plugin. */
  function CheckerOf(fetchFn: Request -> FetchOutcome): ManagedPlugin -> CheckOutcome {
    plugin => Check(plugin, fetchFn)
  }

  /** `updateInfo && updateInfo.updateAvailable`. */
  predicate ReportsUpdate(c: CheckOutcome) {
    c.result.Some? && c.result.value.updateAvailable
  }

  /**
   * The body of the `checkForUpdates` loop for the plugin at `i`: its
   * check's notices are shown; then, when an update is reported, it is
   * installed if `autoInstall` is set and announced otherwise.
   */
  function Visit(env: VaultEnv, autoInstall: bool, checker: ManagedPlugin -> CheckOutcome,
                 download: JsValue -> Option<string>, i: nat, w: World): (w': World)
    requires i < |w.plugins|
    ensures |w'.plugins| == |w.plugins|
    ensures forall j :: 0 <= j < |w.plugins| && j != i ==> w'.plugins[j] == w.plugins[j]
  {
    var plugin := w.plugins[i];
    var c := checker(plugin);
    var w1 := w.(notices := w.notices + c.notices);
    if ReportsUpdate(c) && autoInstall then InstallSpec(env, w1, i, c.result.value, download)
    else if ReportsUpdate(c) then
      w1.(notices := w1.notices + [UpdateAvailableNotice(plugin.name, c.result.value.latestVersion)])
    else w1
  }

  /** The first `n` rounds of the `checkForUpdates` loop, in list order,
      from `w`. */
  function PassThrough(env: VaultEnv, autoInstall: bool, checker: ManagedPlugin -> CheckOutcome,
                       download: JsValue -> Option<string>, w: World, n: nat): (w': World)
    requires n <= |w.plugins|
    ensures |w'.plugins| == |w.plugins|
  {
    if n == 0 then w
    else Visit(env, autoInstall, checker, download, n - 1, PassThrough(env, autoInstall, checker, download, w, n - 1))
  }

  /** The whole `checkForUpdates` loop. */
  function Pass(env: VaultEnv, autoInstall: bool, checker: ManagedPlugin -> CheckOutcome,
                download: JsValue -> Option<string>, w: World): (w': World)
    ensures |w'.plugins| == |w.plugins|
  {
    PassThrough(env, autoInstall, checker, download, w, |w.plugins|)
  }

  /** The notice a rejected addition shows. */
  const NameAndUrlRequired := "Name and repository URL required"

  /** The entry the "Add" button pushes: no `latestVersion` property, and
      the token field's text (empty unless typed in) as `githubToken`. */
  function NewEntry(name: string, repoUrl: string, token: string): ManagedPlugin {
    ManagedPlugin(name, repoUrl, Undefined, Some(token))
  }

  /** Every entry has a name and a repository URL, as the "Add" button
      demands of the entries it creates. */
  predicate EntriesNamed(plugins: seq<ManagedPlugin>) {
    forall j :: 0 <= j < |plugins| ==> plugins[j].name != "" && plugins[j].repoUrl != ""
  }

  /** `plugins.splice(idx, 1)`: the entry at `idx` is removed and the rest
      close up in order; an index past the end removes nothing. */
  function Spliced(plugins: seq<ManagedPlugin>, idx: nat): (r: seq<ManagedPlugin>)
    ensures idx < |plugins| ==> |r| == |plugins| - 1
    ensures idx >= |plugins| ==> r == plugins
    ensures forall j :: 0 <= j < idx && j < |r| ==> r[j] == plugins[j]
    ensures forall j :: idx <= j < |r| ==> r[j] == plugins[j + 1]
  {
    if idx < |plugins| then plugins[..idx] + plugins[idx + 1..] else plugins
  }

  /** The check period after the text `val` was typed: `parseInt(val)`
      when that is a number above zero, the old period otherwise. */
  function NewCheckPeriod(current: int, val: string): (r: int)
    ensures r == current || r > 0
    ensures r != current ==> ParseInt(val) == Some(r)
    ensures (ParseInt(val).None? || ParseInt(val).value <= 0) ==> r == current
    ensures ParseInt(val).Some? && ParseInt(val).value > 0 ==> r == ParseInt(val).value
  {
    match ParseInt(val)
    case Some(n) => if n > 0 then n else current
    case None => current
  }
}
