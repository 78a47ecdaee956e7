/**
 * The plugin manager's state and handlers (main.ts): the vault adapter it
 * writes through, and the plugin object whose settings the settings tab
 * and the update pass change in place.
 */
module Manager {
  import opened Wrappers
  import opened JsValues
  import opened ReleaseChecker
  import opened PluginManager
  import JsStrings

  /**
   * The vault adapter: its files and folders, and the paths written to,
   * in order.  Which writes throw (and with what error) and which folder
   * creations fail are fixed when the adapter is made.
   */
  class Vault {
    var files: map<string, string>
    var folders: set<string>
    var writeLog: seq<string>
    const basePath: Option<string>
    const writeErrors: map<string, string>
    const mkdirErrors: set<string>

    constructor (basePath: Option<string>, files: map<string, string>, folders: set<string>,
                 writeErrors: map<string, string>, mkdirErrors: set<string>)
      ensures this.basePath == basePath && this.writeErrors == writeErrors && this.mkdirErrors == mkdirErrors
      ensures this.files == files && this.folders == folders && writeLog == []
    {
      this.basePath := basePath;
      this.writeErrors := writeErrors;
      this.mkdirErrors := mkdirErrors;
      this.files := files;
      this.folders := folders;
      writeLog := [];
    }

    /** `adapter.mkdir(path)`; reports whether it failed. */
    method Mkdir(path: string) returns (failed: bool)
      modifies this
      ensures failed <==> path in mkdirErrors
      ensures folders == if failed then old(folders) else old(folders) + {path}
      ensures files == old(files) && writeLog == old(writeLog)
    {
      failed := path in mkdirErrors;
      if !failed {
        folders := folders + {path};
      }
    }

    /** `adapter.writeBinary(path, data)`: either throws `writeErrors[path]`
        and leaves the files alone, or stores `data` at `path`. */
    method WriteBinary(path: string, data: string) returns (error: Option<string>)
      modifies this
      ensures writeLog == old(writeLog) + [path]
      ensures error == if path in writeErrors then Some(writeErrors[path]) else None
      ensures files == if error.Some? then old(files) else old(files)[path := data]
      ensures folders == old(folders)
    {
      writeLog := writeLog + [path];
      if path in writeErrors {
        error := Some(writeErrors[path]);
      } else {
        error := None;
        files := files[path := data];
      }
    }
  }

  /**
   * The plugin with its settings (`plugins`, `checkPeriodMinutes`,
   * `autoInstall`) and the notices it has shown.
   */
  class AltPluginManager {
    var plugins: seq<ManagedPlugin>
    var checkPeriodMinutes: int
    var autoInstall: bool
    var notices: seq<string>
    const vault: Vault

    /** `DEFAULT_SETTINGS`: no plugins, a 60-minute period, no automatic
        installation. */
    constructor (vault: Vault)
      ensures this.vault == vault
      ensures plugins == [] && checkPeriodMinutes == 60 && !autoInstall && notices == []
      ensures EntriesNamed(plugins)
    {
      this.vault := vault;
      plugins := [];
      checkPeriodMinutes := 60;
      autoInstall := false;
      notices := [];
    }

    function Env(): VaultEnv {
      VaultEnv(vault.basePath, vault.writeErrors, vault.mkdirErrors)
    }

    /** The part of the state the installer and the update pass change. */
    function State(): World
      reads this, vault
    {
      World(plugins, vault.files, vault.folders, vault.writeLog, notices)
    }

    /** The file loop's view of the current state. */
    function Progress(): InstallState
      reads this, vault
    {
      InstallState(vault.files, notices, vault.writeLog, None)
    }

    /**
     * `installPluginUpdate(plugins[idx], info)`: make the folder (a failure
     * is ignored), fetch and write the three required files in order, then
     * record the version; a write that throws ends the whole install with
     * an error notice.
     */
    method InstallPluginUpdate(idx: nat, info: UpdateInfo, download: JsValue -> Option<string>)
      requires idx < |plugins|
      modifies this, vault
      ensures State() == InstallSpec(Env(), old(State()), idx, info, download)
      ensures checkPeriodMinutes == old(checkPeriodMinutes) && autoInstall == old(autoInstall)
    {
      var plugin := plugins[idx];
      var folder := GetPluginFolderPath(vault.basePath, plugin.name);
      var mkdirFailed := vault.Mkdir(folder);
      var error := WriteFiles(folder, plugin.name, RequiredFiles, info.assets, download);
      if error.Some? {
        notices := notices + [InstallErrorNotice(plugin.name, error.value)];
        return;
      }
      notices := notices + [UpdatedNotice(plugin.name, info.latestVersion)];
      plugins := plugins[idx := plugin.(latestVersion := info.latestVersion)];
    }

    /**
     * The file loop of `installPluginUpdate` over `fileNames`: a file whose
     * download is falsy gets a notice and is skipped, any other is written,
     * and the first write that throws ends the loop with its error.
     */
    method WriteFiles(folder: string, name: string, fileNames: seq<string>, assets: map<string, JsValue>,
                      download: JsValue -> Option<string>) returns (error: Option<string>)
      modifies this, vault
      ensures InstallState(vault.files, notices, vault.writeLog, error)
              == WriteFrom(folder, name, fileNames, assets, download, vault.writeErrors, old(Progress()))
      ensures plugins == old(plugins) && vault.folders == old(vault.folders)
      ensures checkPeriodMinutes == old(checkPeriodMinutes) && autoInstall == old(autoInstall)
    {
      ghost var target := WriteFrom(folder, name, fileNames, assets, download, vault.writeErrors, Progress());
      var i := 0;
      while i < |fileNames|
        invariant 0 <= i <= |fileNames|
        invariant plugins == old(plugins) && vault.folders == old(vault.folders)
        invariant checkPeriodMinutes == old(checkPeriodMinutes) && autoInstall == old(autoInstall)
        invariant WriteFrom(folder, name, fileNames[i..], assets, download, vault.writeErrors, Progress()) == target
      {
        assert fileNames[i..][0] == fileNames[i] && fileNames[i..][1..] == fileNames[i + 1..];
        var file := fileNames[i];
        var content := download(Locator(assets, file));
        if !Downloaded(content) {
          notices := notices + [FailedDownloadNotice(file, name)];
        } else {
          error := vault.WriteBinary(TargetPath(folder, file), content.value);
          if error.Some? {
            return;
          }
        }
        i := i + 1;
      }
      error := None;
    }

    /**
     * `checkForUpdates`: check every plugin in list order with the release
     * checker, showing the check's notices, and install or announce each
     * reported update.
     */
    method CheckForUpdates(fetchFn: Request -> FetchOutcome, download: JsValue -> Option<string>)
      modifies this, vault
      ensures State() == Pass(Env(), autoInstall, CheckerOf(fetchFn), download, old(State()))
      ensures checkPeriodMinutes == old(checkPeriodMinutes) && autoInstall == old(autoInstall)
    {
      RunPass(CheckerOf(fetchFn), download);
    }

    /** The loop of `checkForUpdates`, for any checker. */
    method RunPass(checker: ManagedPlugin -> CheckOutcome, download: JsValue -> Option<string>)
      modifies this, vault
      ensures State() == Pass(Env(), autoInstall, checker, download, old(State()))
      ensures checkPeriodMinutes == old(checkPeriodMinutes) && autoInstall == old(autoInstall)
    {
      var i := 0;
      while i < |plugins|
        invariant i <= |plugins| == |old(plugins)|
        invariant checkPeriodMinutes == old(checkPeriodMinutes) && autoInstall == old(autoInstall)
        invariant State() == PassThrough(Env(), autoInstall, checker, download, old(State()), i)
      {
        VisitPlugin(i, checker, download);
        i := i + 1;
      }
    }

    /** One round of the `checkForUpdates` loop, for the entry at `i`. */
    method VisitPlugin(i: nat, checker: ManagedPlugin -> CheckOutcome, download: JsValue -> Option<string>)
      requires i < |plugins|
      modifies this, vault
      ensures State() == Visit(Env(), autoInstall, checker, download, i, old(State()))
      ensures checkPeriodMinutes == old(checkPeriodMinutes) && autoInstall == old(autoInstall)
    {
      var plugin := plugins[i];
      var updateInfo := checker(plugin);
      notices := notices + updateInfo.notices;
      if updateInfo.result.Some? && updateInfo.result.value.updateAvailable && autoInstall {
        InstallPluginUpdate(i, updateInfo.result.value, download);
      } else if updateInfo.result.Some? && updateInfo.result.value.updateAvailable {
        notices := notices + [UpdateAvailableNotice(plugin.name, updateInfo.result.value.latestVersion)];
      }
    }

    /** The "Check now" button of the entry at `idx`: only the check's
        notices remain; its result is dropped. */
    method CheckPluginNow(idx: nat, fetchFn: Request -> FetchOutcome)
      requires idx < |plugins|
      modifies this
      ensures notices == old(notices) + Check(old(plugins[idx]), fetchFn).notices
      ensures plugins == old(plugins) && checkPeriodMinutes == old(checkPeriodMinutes) && autoInstall == old(autoInstall)
    {
      var outcome := CheckSinglePluginForUpdate(plugins[idx], fetchFn);
      notices := notices + outcome.notices;
    }

    /** The "Add" button: both a name and a repository URL are needed;
        the new entry goes at the end. */
    method AddPlugin(newName: string, newRepo: string, newToken: string)
      modifies this
      ensures newName == "" || newRepo == "" ==> plugins == old(plugins) && notices == old(notices) + [NameAndUrlRequired]
      ensures newName != "" && newRepo != "" ==>
                plugins == old(plugins) + [NewEntry(newName, newRepo, newToken)] && notices == old(notices)
      ensures old(EntriesNamed(plugins)) ==> EntriesNamed(plugins)
      ensures checkPeriodMinutes == old(checkPeriodMinutes) && autoInstall == old(autoInstall)
    {
      if newName == "" || newRepo == "" {
        notices := notices + [NameAndUrlRequired];
        return;
      }
      plugins := plugins + [NewEntry(newName, newRepo, newToken)];
    }

    /** The "Delete" button of the entry at `idx`. */
    method DeletePlugin(idx: nat)
      modifies this
      ensures plugins == Spliced(old(plugins), idx)
      ensures old(EntriesNamed(plugins)) ==> EntriesNamed(plugins)
      ensures notices == old(notices) && checkPeriodMinutes == old(checkPeriodMinutes) && autoInstall == old(autoInstall)
    {
      if idx < |plugins| {
        plugins := plugins[..idx] + plugins[idx + 1..];
      }
    }

    /** The check-period text field. */
    method SetCheckPeriod(val: string)
      modifies this
      ensures checkPeriodMinutes == NewCheckPeriod(old(checkPeriodMinutes), val)
      ensures plugins == old(plugins) && notices == old(notices) && autoInstall == old(autoInstall)
    {
      var num := JsStrings.ParseInt(val);
      if num.Some? && num.value > 0 {
        checkPeriodMinutes := num.value;
      }
    }

    /** The auto-install toggle. */
    method SetAutoInstall(val: bool)
      modifies this
      ensures autoInstall == val
      ensures plugins == old(plugins) && notices == old(notices) && checkPeriodMinutes == old(checkPeriodMinutes)
    {
      autoInstall := val;
    }
  }
}
