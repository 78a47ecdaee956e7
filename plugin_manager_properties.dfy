/**
 * What the installer, the update pass and the settings handlers of
 * main.ts guarantee, proved about the functions in plugin_manager.dfy.
 */
module PluginManagerProperties {
  import opened Wrappers
  import opened JsValues
  import opened JsStrings
  import opened ReleaseChecker
  import opened PluginManager

  // ---------------------------------------------------------------------
  // Paths

  /** Different plugins of one vault get different folders. */
  lemma FolderPathInjective(basePath: Option<string>, name1: string, name2: string)
    requires GetPluginFolderPath(basePath, name1) == GetPluginFolderPath(basePath, name2)
    ensures name1 == name2
  {
    var p := GetPluginFolderPath(basePath, name1);
    assert |name1| == |name2|;
    assert name1 == p[|p| - |name1|..] == name2;
  }

  /** Within one folder, different file names give different paths. */
  lemma TargetPathInjective(folder: string, file1: string, file2: string)
    requires TargetPath(folder, file1) == TargetPath(folder, file2)
    ensures file1 == file2
  {
    var p := TargetPath(folder, file1);
    assert |file1| == |file2|;
    assert file1 == p[|folder| + 1..] == file2;
  }

  /** The three required files are three different names. */
  lemma RequiredFilesDistinct()
    ensures forall a, b :: 0 <= a < b < |RequiredFiles| ==> RequiredFiles[a] != RequiredFiles[b]
  {
    assert |RequiredFiles[0]| == 7 && |RequiredFiles[1]| == 10 && |RequiredFiles[2]| == 13;
  }

  // ---------------------------------------------------------------------
  // Reference definitions for the file loop

  /** The paths of the files whose download succeeds, in order. */
  function Targets(folder: string, fileNames: seq<string>, assets: map<string, JsValue>,
                   download: JsValue -> Option<string>): (paths: seq<string>)
    ensures |paths| <= |fileNames|
  {
    if fileNames == [] then []
    else
      var rest := Targets(folder, fileNames[1..], assets, download);
      if Downloaded(download(Locator(assets, fileNames[0]))) then [TargetPath(folder, fileNames[0])] + rest
      else rest
  }

  /** Every path in `Targets` is the path of one of the files. */
  lemma {:induction false} TargetsAreTargetPaths(folder: string, fileNames: seq<string>, assets: map<string, JsValue>,
                                                 download: JsValue -> Option<string>, p: string)
    requires p in Targets(folder, fileNames, assets, download)
    ensures exists j :: 0 <= j < |fileNames| && p == TargetPath(folder, fileNames[j])
  {
    var rest := Targets(folder, fileNames[1..], assets, download);
    if p == TargetPath(folder, fileNames[0]) {
    } else {
      assert p in rest;
      TargetsAreTargetPaths(folder, fileNames[1..], assets, download, p);
      var j :| 0 <= j < |fileNames[1..]| && p == TargetPath(folder, fileNames[1..][j]);
      assert fileNames[1..][j] == fileNames[j + 1];
    }
  }

  /** The notices for the files whose download fails, in order. */
  function SkipNotices(name: string, fileNames: seq<string>, assets: map<string, JsValue>,
                       download: JsValue -> Option<string>): (notices: seq<string>)
  {
    if fileNames == [] then []
    else
      var rest := SkipNotices(name, fileNames[1..], assets, download);
      if Downloaded(download(Locator(assets, fileNames[0]))) then rest
      else [FailedDownloadNotice(fileNames[0], name)] + rest
  }

  /** Writing `file` throws: its download succeeds and its path is one
      whose write fails. */
  predicate WriteFails(folder: string, file: string, assets: map<string, JsValue>,
                       download: JsValue -> Option<string>, writeErrors: map<string, string>) {
    Downloaded(download(Locator(assets, file))) && TargetPath(folder, file) in writeErrors
  }

  /** The position of the first file whose write throws, if any. */
  function FirstFailure(folder: string, fileNames: seq<string>, assets: map<string, JsValue>,
                        download: JsValue -> Option<string>, writeErrors: map<string, string>): (k: Option<nat>)
    ensures k.Some? ==> k.value < |fileNames| && WriteFails(folder, fileNames[k.value], assets, download, writeErrors)
  {
    if fileNames == [] then None
    else if WriteFails(folder, fileNames[0], assets, download, writeErrors) then Some(0)
    else
      match FirstFailure(folder, fileNames[1..], assets, download, writeErrors)
      case None => None
      case Some(k) => Some(k + 1)
  }

  /** No file before the first failing one fails, and with no failing
      file none fails at all. */
  lemma {:induction false} FirstFailureIsFirst(folder: string, fileNames: seq<string>, assets: map<string, JsValue>,
                                               download: JsValue -> Option<string>, writeErrors: map<string, string>)
    ensures var k := FirstFailure(folder, fileNames, assets, download, writeErrors);
            forall j :: 0 <= j < |fileNames| && (k.None? || j < k.value) ==>
              !WriteFails(folder, fileNames[j], assets, download, writeErrors)
  {
    if fileNames != [] {
      FirstFailureIsFirst(folder, fileNames[1..], assets, download, writeErrors);
      forall j | 1 <= j < |fileNames| ensures fileNames[j] == fileNames[1..][j - 1] {
      }
    }
  }

  /** How many files the loop gets through: all of them, or up to and
      including the first whose write throws. */
  function Processed(k: Option<nat>, n: nat): nat {
    match k
    case None => n
    case Some(i) => i + 1
  }

  // ---------------------------------------------------------------------
  // The file loop

  /** `SkipNotices` over a non-empty prefix, split after its first file
      and appended to `before`. */
  lemma NoticesCons(name: string, fileNames: seq<string>, n: nat, assets: map<string, JsValue>,
                    download: JsValue -> Option<string>, before: seq<string>, notices: seq<string>)
    requires 0 < n <= |fileNames|
    requires notices == before
                        + (if Downloaded(download(Locator(assets, fileNames[0]))) then [] else [FailedDownloadNotice(fileNames[0], name)])
                        + SkipNotices(name, fileNames[1..][..n - 1], assets, download)
    ensures notices == before + SkipNotices(name, fileNames[..n], assets, download)
  {
    var prefix := fileNames[..n];
    assert prefix[0] == fileNames[0] && prefix[1..] == fileNames[1..][..n - 1];
  }

  /** `Targets` over a non-empty prefix, split after its first file and
      appended to `before`. */
  lemma TargetsCons(folder: string, fileNames: seq<string>, n: nat, assets: map<string, JsValue>,
                    download: JsValue -> Option<string>, before: seq<string>, attempts: seq<string>)
    requires 0 < n <= |fileNames|
    requires attempts == before
                         + (if Downloaded(download(Locator(assets, fileNames[0]))) then [TargetPath(folder, fileNames[0])] else [])
                         + Targets(folder, fileNames[1..][..n - 1], assets, download)
    ensures attempts == before + Targets(folder, fileNames[..n], assets, download)
  {
    var prefix := fileNames[..n];
    assert prefix[0] == fileNames[0] && prefix[1..] == fileNames[1..][..n - 1];
  }

  /** The state after the first file, when its write does not throw. */
  function AfterFirst(folder: string, name: string, fileNames: seq<string>, assets: map<string, JsValue>,
                      download: JsValue -> Option<string>, s: InstallState): InstallState
    requires fileNames != []
  {
    var file := fileNames[0];
    var content := download(Locator(assets, file));
    if !Downloaded(content) then s.(notices := s.notices + [FailedDownloadNotice(file, name)])
    else s.(files := s.files[TargetPath(folder, file) := content.value],
            attempts := s.attempts + [TargetPath(folder, file)])
  }

  /** How far the loop gets, and the error it ends with, when the first
      write does not throw: one file further than on the rest. */
  lemma FirstWriteSucceedsProgress(folder: string, fileNames: seq<string>, assets: map<string, JsValue>,
                                   download: JsValue -> Option<string>, writeErrors: map<string, string>)
    requires fileNames != []
    requires !WriteFails(folder, fileNames[0], assets, download, writeErrors)
    ensures var k := FirstFailure(folder, fileNames, assets, download, writeErrors);
            var k1 := FirstFailure(folder, fileNames[1..], assets, download, writeErrors);
            && Processed(k, |fileNames|) == Processed(k1, |fileNames| - 1) + 1
            && k.None? == k1.None?
            && (k.Some? ==> fileNames[k.value] == fileNames[1..][k1.value])
  {
  }

  /** The notices, one file further: if the loop's notices from the state
      after the first file are those of the skipped files among the rest,
      they are those of the skipped files among all of them. */
  lemma NoticesStep(folder: string, name: string, fileNames: seq<string>, assets: map<string, JsValue>,
                    download: JsValue -> Option<string>, writeErrors: map<string, string>,
                    s: InstallState, notices: seq<string>)
    requires fileNames != []
    requires !WriteFails(folder, fileNames[0], assets, download, writeErrors)
    requires var done1 := Processed(FirstFailure(folder, fileNames[1..], assets, download, writeErrors), |fileNames| - 1);
             notices == AfterFirst(folder, name, fileNames, assets, download, s).notices
                        + SkipNotices(name, fileNames[1..][..done1], assets, download)
    ensures var done := Processed(FirstFailure(folder, fileNames, assets, download, writeErrors), |fileNames|);
            notices == s.notices + SkipNotices(name, fileNames[..done], assets, download)
  {
    var done := Processed(FirstFailure(folder, fileNames, assets, download, writeErrors), |fileNames|);
    var done1 := Processed(FirstFailure(folder, fileNames[1..], assets, download, writeErrors), |fileNames| - 1);
    assert done1 == done - 1 && 0 < done <= |fileNames| by {
      FirstWriteSucceedsProgress(folder, fileNames, assets, download, writeErrors);
    }
    var first := if Downloaded(download(Locator(assets, fileNames[0]))) then [] else [FailedDownloadNotice(fileNames[0], name)];
    assert AfterFirst(folder, name, fileNames, assets, download, s).notices == s.notices + first;
    NoticesCons(name, fileNames, done, assets, download, s.notices, notices);
  }

  /** The attempted writes, one file further, in the same way. */
  lemma AttemptsStep(folder: string, name: string, fileNames: seq<string>, assets: map<string, JsValue>,
                     download: JsValue -> Option<string>, writeErrors: map<string, string>,
                     s: InstallState, attempts: seq<string>)
    requires fileNames != []
    requires !WriteFails(folder, fileNames[0], assets, download, writeErrors)
    requires var done1 := Processed(FirstFailure(folder, fileNames[1..], assets, download, writeErrors), |fileNames| - 1);
             attempts == AfterFirst(folder, name, fileNames, assets, download, s).attempts
                         + Targets(folder, fileNames[1..][..done1], assets, download)
    ensures var done := Processed(FirstFailure(folder, fileNames, assets, download, writeErrors), |fileNames|);
            attempts == s.attempts + Targets(folder, fileNames[..done], assets, download)
  {
    var done := Processed(FirstFailure(folder, fileNames, assets, download, writeErrors), |fileNames|);
    var done1 := Processed(FirstFailure(folder, fileNames[1..], assets, download, writeErrors), |fileNames| - 1);
    assert done1 == done - 1 && 0 < done <= |fileNames| by {
      FirstWriteSucceedsProgress(folder, fileNames, assets, download, writeErrors);
    }
    var first := if Downloaded(download(Locator(assets, fileNames[0]))) then [TargetPath(folder, fileNames[0])] else [];
    assert AfterFirst(folder, name, fileNames, assets, download, s).attempts == s.attempts + first;
    TargetsCons(folder, fileNames, done, assets, download, s.attempts, attempts);
  }

  /** The error the loop ends with: that of the first throwing write, or
      none when no write throws. */
  predicate ThrownOutcome(folder: string, name: string, fileNames: seq<string>, assets: map<string, JsValue>,
                          download: JsValue -> Option<string>, writeErrors: map<string, string>, s: InstallState)
    requires s.thrown.None?
  {
    var k := FirstFailure(folder, fileNames, assets, download, writeErrors);
    WriteFrom(folder, name, fileNames, assets, download, writeErrors, s).thrown
      == (if k.None? then None else Some(writeErrors[TargetPath(folder, fileNames[k.value])]))
  }

  /** The notices the loop adds: one for each file it gets to whose
      download fails, in order. */
  predicate NoticesOutcome(folder: string, name: string, fileNames: seq<string>, assets: map<string, JsValue>,
                           download: JsValue -> Option<string>, writeErrors: map<string, string>, s: InstallState)
    requires s.thrown.None?
  {
    var done := Processed(FirstFailure(folder, fileNames, assets, download, writeErrors), |fileNames|);
    WriteFrom(folder, name, fileNames, assets, download, writeErrors, s).notices
      == s.notices + SkipNotices(name, fileNames[..done], assets, download)
  }

  /** The writes the loop attempts: one for each file it gets to whose
      download succeeds, in order. */
  predicate AttemptsOutcome(folder: string, name: string, fileNames: seq<string>, assets: map<string, JsValue>,
                            download: JsValue -> Option<string>, writeErrors: map<string, string>, s: InstallState)
    requires s.thrown.None?
  {
    var done := Processed(FirstFailure(folder, fileNames, assets, download, writeErrors), |fileNames|);
    WriteFrom(folder, name, fileNames, assets, download, writeErrors, s).attempts
      == s.attempts + Targets(folder, fileNames[..done], assets, download)
  }

  /**
   * What the file loop does, stated outright: it goes through the files up
   * to and including the first whose write throws (all of them when none
   * does); of those, the ones whose download fails get a notice each, in
   * order, and the others are written, in order; the error is that of the
   * first throwing write.
   */
  predicate LoopOutcome(folder: string, name: string, fileNames: seq<string>, assets: map<string, JsValue>,
                        download: JsValue -> Option<string>, writeErrors: map<string, string>, s: InstallState)
    requires s.thrown.None?
  {
    && Processed(FirstFailure(folder, fileNames, assets, download, writeErrors), |fileNames|) <= |fileNames|
    && ThrownOutcome(folder, name, fileNames, assets, download, writeErrors, s)
    && NoticesOutcome(folder, name, fileNames, assets, download, writeErrors, s)
    && AttemptsOutcome(folder, name, fileNames, assets, download, writeErrors, s)
  }

  /** When the first write does not throw, the loop goes on from the
      state after the first file. */
  lemma FirstWriteSucceeds(folder: string, name: string, fileNames: seq<string>, assets: map<string, JsValue>,
                           download: JsValue -> Option<string>, writeErrors: map<string, string>, s: InstallState)
    requires s.thrown.None? && fileNames != []
    requires !WriteFails(folder, fileNames[0], assets, download, writeErrors)
    ensures WriteFrom(folder, name, fileNames, assets, download, writeErrors, s)
            == WriteFrom(folder, name, fileNames[1..], assets, download, writeErrors,
                         AfterFirst(folder, name, fileNames, assets, download, s))
  {
  }

  /** When the first write throws, the loop ends right there. */
  lemma FirstWriteThrows(folder: string, name: string, fileNames: seq<string>, assets: map<string, JsValue>,
                         download: JsValue -> Option<string>, writeErrors: map<string, string>, s: InstallState)
    requires s.thrown.None? && fileNames != []
    requires WriteFails(folder, fileNames[0], assets, download, writeErrors)
    ensures LoopOutcome(folder, name, fileNames, assets, download, writeErrors, s)
  {
    var r := WriteFrom(folder, name, fileNames, assets, download, writeErrors, s);
    assert fileNames[1..][..0] == [];
    NoticesCons(name, fileNames, 1, assets, download, s.notices, r.notices);
    TargetsCons(folder, fileNames, 1, assets, download, s.attempts, r.attempts);
  }

  /** The loop ends with the error of the first throwing write. */
  lemma {:induction false} WriteFromThrown(folder: string, name: string, fileNames: seq<string>,
                                           assets: map<string, JsValue>, download: JsValue -> Option<string>,
                                           writeErrors: map<string, string>, s: InstallState)
    requires s.thrown.None?
    ensures ThrownOutcome(folder, name, fileNames, assets, download, writeErrors, s)
    decreases |fileNames|
  {
    if fileNames != [] && !WriteFails(folder, fileNames[0], assets, download, writeErrors) {
      var s1 := AfterFirst(folder, name, fileNames, assets, download, s);
      WriteFromThrown(folder, name, fileNames[1..], assets, download, writeErrors, s1);
      FirstWriteSucceeds(folder, name, fileNames, assets, download, writeErrors, s);
      FirstWriteSucceedsProgress(folder, fileNames, assets, download, writeErrors);
    }
  }

  /** The loop's notices are those of the skipped files it gets to. */
  lemma {:induction false} WriteFromNotices(folder: string, name: string, fileNames: seq<string>,
                                            assets: map<string, JsValue>, download: JsValue -> Option<string>,
                                            writeErrors: map<string, string>, s: InstallState)
    requires s.thrown.None?
    ensures NoticesOutcome(folder, name, fileNames, assets, download, writeErrors, s)
    decreases |fileNames|
  {
    if fileNames == [] {
      assert fileNames[..0] == [];
    } else if WriteFails(folder, fileNames[0], assets, download, writeErrors) {
      FirstWriteThrows(folder, name, fileNames, assets, download, writeErrors, s);
    } else {
      WriteFromNotices(folder, name, fileNames[1..], assets, download, writeErrors,
                       AfterFirst(folder, name, fileNames, assets, download, s));
      FirstWriteSucceeds(folder, name, fileNames, assets, download, writeErrors, s);
      NoticesStep(folder, name, fileNames, assets, download, writeErrors, s,
                  WriteFrom(folder, name, fileNames, assets, download, writeErrors, s).notices);
    }
  }

  /** The loop's writes go to the downloaded files it gets to. */
  lemma {:induction false} WriteFromAttempts(folder: string, name: string, fileNames: seq<string>,
                                             assets: map<string, JsValue>, download: JsValue -> Option<string>,
                                             writeErrors: map<string, string>, s: InstallState)
    requires s.thrown.None?
    ensures AttemptsOutcome(folder, name, fileNames, assets, download, writeErrors, s)
    decreases |fileNames|
  {
    if fileNames == [] {
      assert fileNames[..0] == [];
    } else if WriteFails(folder, fileNames[0], assets, download, writeErrors) {
      FirstWriteThrows(folder, name, fileNames, assets, download, writeErrors, s);
    } else {
      WriteFromAttempts(folder, name, fileNames[1..], assets, download, writeErrors,
                        AfterFirst(folder, name, fileNames, assets, download, s));
      FirstWriteSucceeds(folder, name, fileNames, assets, download, writeErrors, s);
      AttemptsStep(folder, name, fileNames, assets, download, writeErrors, s,
                   WriteFrom(folder, name, fileNames, assets, download, writeErrors, s).attempts);
    }
  }

  /** The file loop always behaves as `LoopOutcome` says. */
  lemma WriteFromOutcome(folder: string, name: string, fileNames: seq<string>,
                         assets: map<string, JsValue>, download: JsValue -> Option<string>,
                         writeErrors: map<string, string>, s: InstallState)
    requires s.thrown.None?
    ensures LoopOutcome(folder, name, fileNames, assets, download, writeErrors, s)
  {
    WriteFromThrown(folder, name, fileNames, assets, download, writeErrors, s);
    WriteFromNotices(folder, name, fileNames, assets, download, writeErrors, s);
    WriteFromAttempts(folder, name, fileNames, assets, download, writeErrors, s);
  }

  /** The loop changes no file outside the paths of files it downloads. */
  lemma {:induction false} WriteFromFrame(folder: string, name: string, fileNames: seq<string>,
                                          assets: map<string, JsValue>, download: JsValue -> Option<string>,
                                          writeErrors: map<string, string>, s: InstallState, p: string)
    requires s.thrown.None?
    requires p !in Targets(folder, fileNames, assets, download)
    ensures var r := WriteFrom(folder, name, fileNames, assets, download, writeErrors, s);
            (p in r.files <==> p in s.files) && (p in s.files ==> r.files[p] == s.files[p])
    decreases |fileNames|
  {
    if fileNames != [] {
      var file := fileNames[0];
      var content := download(Locator(assets, file));
      var path := TargetPath(folder, file);
      if !Downloaded(content) {
        WriteFromFrame(folder, name, fileNames[1..], assets, download, writeErrors,
                       s.(notices := s.notices + [FailedDownloadNotice(file, name)]), p);
      } else if path !in writeErrors {
        assert p != path;
        WriteFromFrame(folder, name, fileNames[1..], assets, download, writeErrors,
                       s.(files := s.files[path := content.value], attempts := s.attempts + [path]), p);
      }
    }
  }

  /**
   * When no write throws and the file names are distinct, every file whose
   * download succeeds holds what was downloaded, and the path of every
   * file whose download fails is left as it was.
   */
  lemma {:induction false} WriteFromContents(folder: string, name: string, fileNames: seq<string>,
                                             assets: map<string, JsValue>, download: JsValue -> Option<string>,
                                             writeErrors: map<string, string>, s: InstallState)
    requires s.thrown.None?
    requires forall a, b :: 0 <= a < b < |fileNames| ==> fileNames[a] != fileNames[b]
    requires WriteFrom(folder, name, fileNames, assets, download, writeErrors, s).thrown.None?
    ensures var r := WriteFrom(folder, name, fileNames, assets, download, writeErrors, s);
            forall j :: 0 <= j < |fileNames| ==>
              var content := download(Locator(assets, fileNames[j]));
              var path := TargetPath(folder, fileNames[j]);
              && (Downloaded(content) ==> path in r.files && r.files[path] == content.value)
              && (!Downloaded(content) ==> (path in r.files <==> path in s.files)
                                           && (path in s.files ==> r.files[path] == s.files[path]))
    decreases |fileNames|
  {
    if fileNames != [] {
      var file := fileNames[0];
      var rest := fileNames[1..];
      var content := download(Locator(assets, file));
      var path := TargetPath(folder, file);
      var s1 := if !Downloaded(content) then s.(notices := s.notices + [FailedDownloadNotice(file, name)])
                else s.(files := s.files[path := content.value], attempts := s.attempts + [path]);
      assert !WriteFails(folder, file, assets, download, writeErrors);
      assert WriteFrom(folder, name, fileNames, assets, download, writeErrors, s)
             == WriteFrom(folder, name, rest, assets, download, writeErrors, s1);
      var r := WriteFrom(folder, name, rest, assets, download, writeErrors, s1);
      WriteFromContents(folder, name, rest, assets, download, writeErrors, s1);
      if path in Targets(folder, rest, assets, download) {
        TargetsAreTargetPaths(folder, rest, assets, download, path);
        var j :| 0 <= j < |rest| && path == TargetPath(folder, rest[j]);
        TargetPathInjective(folder, file, rest[j]);
        assert false;
      }
      WriteFromFrame(folder, name, rest, assets, download, writeErrors, s1, path);
      forall j | 0 <= j < |fileNames|
        ensures var c := download(Locator(assets, fileNames[j]));
                var q := TargetPath(folder, fileNames[j]);
                && (Downloaded(c) ==> q in r.files && r.files[q] == c.value)
                && (!Downloaded(c) ==> (q in r.files <==> q in s.files) && (q in s.files ==> r.files[q] == s.files[q]))
      {
        if j > 0 {
          assert fileNames[j] == rest[j - 1];
          var q := TargetPath(folder, fileNames[j]);
          if q == path {
            TargetPathInjective(folder, fileNames[j], file);
          }
        }
      }
    }
  }

  // ---------------------------------------------------------------------
  // The installer

  /** The folder an install writes into. */
  function FolderOf(env: VaultEnv, w: World, idx: nat): string
    requires idx < |w.plugins|
  {
    GetPluginFolderPath(env.basePath, w.plugins[idx].name)
  }

  /**
   * `installPluginUpdate`, stated outright: the version is recorded
   * exactly when no write throws, even when downloads were skipped; the
   * notices are one per skipped file and then a single success or error
   * notice; the writes go to the required files in order and stop at the
   * first that throws.
   */
  lemma InstallOutcome(env: VaultEnv, w: World, idx: nat, info: UpdateInfo, download: JsValue -> Option<string>)
    requires idx < |w.plugins|
    ensures var w' := InstallSpec(env, w, idx, info, download);
            var plugin := w.plugins[idx];
            var folder := FolderOf(env, w, idx);
            var k := FirstFailure(folder, RequiredFiles, info.assets, download, env.writeErrors);
            var done := Processed(k, |RequiredFiles|);
            && done <= |RequiredFiles|
            && w'.plugins[idx].latestVersion == (if k.None? then info.latestVersion else plugin.latestVersion)
            && w'.notices == w.notices + SkipNotices(plugin.name, RequiredFiles[..done], info.assets, download)
                             + [if k.None? then UpdatedNotice(plugin.name, info.latestVersion)
                                else InstallErrorNotice(plugin.name, env.writeErrors[TargetPath(folder, RequiredFiles[k.value])])]
            && w'.attempts == w.attempts + Targets(folder, RequiredFiles[..done], info.assets, download)
            && w'.folders == AfterMkdir(env, w.folders, folder)
  {
    var plugin := w.plugins[idx];
    WriteFromOutcome(FolderOf(env, w, idx), plugin.name, RequiredFiles, info.assets, download, env.writeErrors,
                     InstallState(w.files, w.notices, w.attempts, None));
  }

  /** An install changes no vault file other than the three required
      files of the plugin's folder; in particular no other asset of the
      release is ever written. */
  lemma InstallTouchesOnlyRequiredFiles(env: VaultEnv, w: World, idx: nat, info: UpdateInfo,
                                        download: JsValue -> Option<string>, p: string)
    requires idx < |w.plugins|
    requires forall f :: f in RequiredFiles ==> p != TargetPath(FolderOf(env, w, idx), f)
    ensures var w' := InstallSpec(env, w, idx, info, download);
            (p in w'.files <==> p in w.files) && (p in w.files ==> w'.files[p] == w.files[p])
  {
    var folder := FolderOf(env, w, idx);
    if p in Targets(folder, RequiredFiles, info.assets, download) {
      TargetsAreTargetPaths(folder, RequiredFiles, info.assets, download, p);
      assert false;
    }
    WriteFromFrame(folder, w.plugins[idx].name, RequiredFiles, info.assets, download, env.writeErrors,
                   InstallState(w.files, w.notices, w.attempts, None), p);
  }

  /** When no write throws, each required file that downloads holds the
      downloaded text, and each one that does not is left as it was. */
  lemma InstallWritesDownloads(env: VaultEnv, w: World, idx: nat, info: UpdateInfo,
                               download: JsValue -> Option<string>)
    requires idx < |w.plugins|
    requires FirstFailure(FolderOf(env, w, idx), RequiredFiles, info.assets, download, env.writeErrors).None?
    ensures var w' := InstallSpec(env, w, idx, info, download);
            forall j :: 0 <= j < |RequiredFiles| ==>
              var content := download(Locator(info.assets, RequiredFiles[j]));
              var path := TargetPath(FolderOf(env, w, idx), RequiredFiles[j]);
              && (Downloaded(content) ==> path in w'.files && w'.files[path] == content.value)
              && (!Downloaded(content) ==> (path in w'.files <==> path in w.files)
                                           && (path in w.files ==> w'.files[path] == w.files[path]))
  {
    var folder := FolderOf(env, w, idx);
    var s := InstallState(w.files, w.notices, w.attempts, None);
    WriteFromOutcome(folder, w.plugins[idx].name, RequiredFiles, info.assets, download, env.writeErrors, s);
    RequiredFilesDistinct();
    WriteFromContents(folder, w.plugins[idx].name, RequiredFiles, info.assets, download, env.writeErrors, s);
  }

  /** A failing `mkdir` changes nothing but the folder set: the file loop
      runs exactly as it would have otherwise. */
  lemma MkdirFailureIgnored(env: VaultEnv, w: World, idx: nat, info: UpdateInfo,
                            download: JsValue -> Option<string>, otherMkdirErrors: set<string>)
    requires idx < |w.plugins|
    ensures var w1 := InstallSpec(env, w, idx, info, download);
            var w2 := InstallSpec(env.(mkdirErrors := otherMkdirErrors), w, idx, info, download);
            w1 == w2.(folders := w1.folders)
  {
  }

  // ---------------------------------------------------------------------
  // The update pass

  /** The notices of checking each plugin of `plugins`, in order. */
  function CheckNotices(plugins: seq<ManagedPlugin>, checker: ManagedPlugin -> CheckOutcome): seq<string> {
    if plugins == [] then []
    else CheckNotices(plugins[..|plugins| - 1], checker) + checker(plugins[|plugins| - 1]).notices
  }

  /** One round changes nothing of the entry it visits but its recorded
      version, and that only to the version its check reported as an
      update, and only with `autoInstall` set. */
  lemma VisitRecords(env: VaultEnv, autoInstall: bool, checker: ManagedPlugin -> CheckOutcome,
                     download: JsValue -> Option<string>, i: nat, w: World)
    requires i < |w.plugins|
    ensures var v := Visit(env, autoInstall, checker, download, i, w);
            && v.plugins[i] == w.plugins[i].(latestVersion := v.plugins[i].latestVersion)
            && (v.plugins[i].latestVersion != w.plugins[i].latestVersion ==>
                  && autoInstall
                  && ReportsUpdate(checker(w.plugins[i]))
                  && v.plugins[i].latestVersion == checker(w.plugins[i]).result.value.latestVersion)
  {
    var c := checker(w.plugins[i]);
    var w1 := w.(notices := w.notices + c.notices);
    if ReportsUpdate(c) && autoInstall {
      assert Visit(env, autoInstall, checker, download, i, w) == InstallSpec(env, w1, i, c.result.value, download);
    }
  }

  /** Without `autoInstall` a round only shows notices: the check's, then
      an "Update available" notice when an update is reported. */
  lemma VisitWithoutAutoInstall(env: VaultEnv, checker: ManagedPlugin -> CheckOutcome,
                                download: JsValue -> Option<string>, i: nat, w: World)
    requires i < |w.plugins|
    ensures var v := Visit(env, false, checker, download, i, w);
            var c := checker(w.plugins[i]);
            && v == w.(notices := v.notices)
            && v.notices == w.notices + c.notices
                            + (if ReportsUpdate(c) then [UpdateAvailableNotice(w.plugins[i].name, c.result.value.latestVersion)]
                               else [])
  {
  }

  /** With `autoInstall` set, a reported update is installed right after
      the check's notices are shown. */
  lemma VisitInstalls(env: VaultEnv, checker: ManagedPlugin -> CheckOutcome,
                      download: JsValue -> Option<string>, i: nat, w: World)
    requires i < |w.plugins|
    requires ReportsUpdate(checker(w.plugins[i]))
    ensures var c := checker(w.plugins[i]);
            Visit(env, true, checker, download, i, w)
            == InstallSpec(env, w.(notices := w.notices + c.notices), i, c.result.value, download)
  {
  }

  /** A round whose check reports no update only shows the check's
      notices. */
  lemma VisitWithoutUpdate(env: VaultEnv, autoInstall: bool, checker: ManagedPlugin -> CheckOutcome,
                           download: JsValue -> Option<string>, i: nat, w: World)
    requires i < |w.plugins|
    requires !ReportsUpdate(checker(w.plugins[i]))
    ensures Visit(env, autoInstall, checker, download, i, w)
            == w.(notices := w.notices + checker(w.plugins[i]).notices)
  {
  }

  /** Entries from `n` on are not touched by the first `n` rounds. */
  lemma {:induction false} PassKeepsLater(env: VaultEnv, autoInstall: bool, checker: ManagedPlugin -> CheckOutcome,
                                          download: JsValue -> Option<string>, w: World, n: nat)
    requires n <= |w.plugins|
    ensures forall j :: n <= j < |w.plugins| ==> PassThrough(env, autoInstall, checker, download, w, n).plugins[j] == w.plugins[j]
  {
    if n > 0 {
      PassKeepsLater(env, autoInstall, checker, download, w, n - 1);
    }
  }

  /** Entry `j` of `after` differs from that of `before` at most in its
      recorded version, and that only to the version its own check
      reported as an update, with `autoInstall` set, and for `j < n`. */
  predicate RecordsOnly(before: seq<ManagedPlugin>, after: seq<ManagedPlugin>, n: nat, autoInstall: bool,
                        checker: ManagedPlugin -> CheckOutcome, j: nat)
    requires j < |before| && j < |after|
  {
    && after[j] == before[j].(latestVersion := after[j].latestVersion)
    && (after[j].latestVersion != before[j].latestVersion ==>
          && j < n && autoInstall
          && ReportsUpdate(checker(before[j]))
          && after[j].latestVersion == checker(before[j]).result.value.latestVersion)
  }

  /** The step of `PassOnlyRecordsVersions`, on the plugin lists alone:
      `mid` is the list after `i` rounds, `after` the list after round `i`
      as well, which changes at most entry `i`, as `VisitRecords` says. */
  lemma RecordsOnlyStep(before: seq<ManagedPlugin>, mid: seq<ManagedPlugin>, after: seq<ManagedPlugin>, i: nat, n: nat,
                        autoInstall: bool, checker: ManagedPlugin -> CheckOutcome)
    requires n == i + 1 && i < |before| == |mid| == |after|
    requires forall j :: 0 <= j < |before| ==> RecordsOnly(before, mid, i, autoInstall, checker, j)
    requires mid[i] == before[i]
    requires forall j :: 0 <= j < |before| && j != i ==> after[j] == mid[j]
    requires RecordsOnly(mid, after, n, autoInstall, checker, i)
    ensures forall j :: 0 <= j < |before| ==> RecordsOnly(before, after, n, autoInstall, checker, j)
  {
    forall j | 0 <= j < |before| ensures RecordsOnly(before, after, n, autoInstall, checker, j) {
      if j != i {
        assert RecordsOnly(before, mid, i, autoInstall, checker, j);
      }
    }
  }

  /**
   * A pass changes nothing of an entry but its recorded version, and that
   * only to the version its own check reported as an update, and only
   * with `autoInstall` set.
   */
  lemma {:induction false} PassOnlyRecordsVersions(env: VaultEnv, autoInstall: bool, checker: ManagedPlugin -> CheckOutcome,
                                                   download: JsValue -> Option<string>, w: World, n: nat)
    requires n <= |w.plugins|
    ensures forall j :: 0 <= j < |w.plugins| ==>
              RecordsOnly(w.plugins, PassThrough(env, autoInstall, checker, download, w, n).plugins, n, autoInstall, checker, j)
  {
    if n > 0 {
      var m: nat := n - 1;
      var p := PassThrough(env, autoInstall, checker, download, w, m);
      var v := Visit(env, autoInstall, checker, download, m, p);
      PassOnlyRecordsVersions(env, autoInstall, checker, download, w, m);
      PassKeepsLater(env, autoInstall, checker, download, w, m);
      VisitRecords(env, autoInstall, checker, download, m, p);
      assert RecordsOnly(p.plugins, v.plugins, n, autoInstall, checker, m);
      RecordsOnlyStep(w.plugins, p.plugins, v.plugins, m, n, autoInstall, checker);
      assert PassThrough(env, autoInstall, checker, download, w, n) == v;
    }
  }

  /** Without `autoInstall` a pass writes nothing, makes no folder and
      keeps every entry: it only shows notices. */
  lemma {:induction false} PassWithoutAutoInstall(env: VaultEnv, checker: ManagedPlugin -> CheckOutcome,
                                                  download: JsValue -> Option<string>, w: World, n: nat)
    requires n <= |w.plugins|
    ensures var w' := PassThrough(env, false, checker, download, w, n);
            w' == w.(notices := w'.notices)
  {
    if n > 0 {
      PassWithoutAutoInstall(env, checker, download, w, n - 1);
      VisitWithoutAutoInstall(env, checker, download, n - 1, PassThrough(env, false, checker, download, w, n - 1));
    }
  }

  /** When no check reports an update, the pass only shows the checks'
      notices, in list order. */
  lemma {:induction false} PassWithoutUpdates(env: VaultEnv, autoInstall: bool, checker: ManagedPlugin -> CheckOutcome,
                                              download: JsValue -> Option<string>, w: World, n: nat)
    requires n <= |w.plugins|
    requires forall j :: 0 <= j < n ==> !ReportsUpdate(checker(w.plugins[j]))
    ensures PassThrough(env, autoInstall, checker, download, w, n)
            == w.(notices := w.notices + CheckNotices(w.plugins[..n], checker))
  {
    if n == 0 {
      assert w.notices + [] == w.notices;
    } else {
      PassWithoutUpdates(env, autoInstall, checker, download, w, n - 1);
      var earlier := CheckNotices(w.plugins[..n - 1], checker);
      var p := w.(notices := w.notices + earlier);
      VisitWithoutUpdate(env, autoInstall, checker, download, n - 1, p);
      assert w.plugins[..n][..n - 1] == w.plugins[..n - 1];
      var last := checker(w.plugins[n - 1]).notices;
      assert CheckNotices(w.plugins[..n], checker) == earlier + last;
      assert (w.notices + earlier) + last == w.notices + (earlier + last);
    }
  }

  /** Entries keep their names and URLs through a pass. */
  lemma PassKeepsEntriesNamed(env: VaultEnv, autoInstall: bool, checker: ManagedPlugin -> CheckOutcome,
                              download: JsValue -> Option<string>, w: World)
    requires EntriesNamed(w.plugins)
    ensures EntriesNamed(Pass(env, autoInstall, checker, download, w).plugins)
  {
    PassOnlyRecordsVersions(env, autoInstall, checker, download, w, |w.plugins|);
    var w' := Pass(env, autoInstall, checker, download, w);
    assert w' == PassThrough(env, autoInstall, checker, download, w, |w.plugins|);
    forall j | 0 <= j < |w'.plugins| ensures w'.plugins[j].name != "" && w'.plugins[j].repoUrl != "" {
      assert RecordsOnly(w.plugins, w'.plugins, |w.plugins|, autoInstall, checker, j);
    }
  }

  // ---------------------------------------------------------------------
  // Settings handlers

  /** Deleting removes exactly the one entry at `idx`. */
  lemma SplicedRemovesOne(plugins: seq<ManagedPlugin>, idx: nat)
    requires idx < |plugins|
    ensures multiset(Spliced(plugins, idx)) + multiset{plugins[idx]} == multiset(plugins)
  {
    assert plugins == plugins[..idx] + [plugins[idx]] + plugins[idx + 1..];
  }

  /** Deleting keeps entries named. */
  lemma SplicedKeepsEntriesNamed(plugins: seq<ManagedPlugin>, idx: nat)
    requires EntriesNamed(plugins)
    ensures EntriesNamed(Spliced(plugins, idx))
  {
  }

  /** A period typed as digits is taken when it is above zero, and
      whatever follows the digits is ignored ("15min" sets 15); a zero
      leaves the period alone. */
  lemma CheckPeriodFromDigits(current: int, d: string, rest: string)
    requires d != [] && AllDigits(d)
    requires rest == [] || !IsDigit(rest[0])
    requires d != "0" || rest == [] || (rest[0] != 'x' && rest[0] != 'X')
    ensures NewCheckPeriod(current, d + rest) == if DecimalValue(d) > 0 then DecimalValue(d) else current
  {
    ParseIntReadsDigits(d, rest, false);
  }

  /** A negative period is ignored. */
  lemma CheckPeriodIgnoresNegative(current: int, d: string, rest: string)
    requires d != [] && AllDigits(d)
    requires rest == [] || !IsDigit(rest[0])
    requires d != "0" || rest == [] || (rest[0] != 'x' && rest[0] != 'X')
    ensures NewCheckPeriod(current, "-" + (d + rest)) == current
  {
    ParseIntReadsNegative(d, rest, false);
  }

  /** Text that does not start with a number is ignored. */
  lemma CheckPeriodIgnoresText(current: int, val: string)
    requires val != [] && !IsWhiteSpace(val[0]) && !IsDigit(val[0]) && val[0] != '-' && val[0] != '+'
    ensures NewCheckPeriod(current, val) == current
  {
    ParseIntRejectsNonDigit(val, false);
  }

  /** Every positive period can be set by typing it. */
  lemma CheckPeriodAcceptsEveryPositive(current: int, n: nat)
    requires n > 0
    ensures NewCheckPeriod(current, NatToDecimal(n)) == n
  {
    ParseIntReadsDecimal(n);
  }
}
