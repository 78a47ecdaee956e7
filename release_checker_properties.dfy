/** Properties of the release checker, as the plugin relies on them. */
module ReleaseCheckerProperties {
  import opened Wrappers
  import opened JsValues
  import opened RepoUrl
  import opened ReleaseChecker

  /** Entry `j` is the last one that writes `key`. */
  predicate LastRecord(entries: seq<AssetEntry>, j: nat, key: string)
    requires j < |entries|
  {
    Records(entries[j], key) && forall k :: j < k < |entries| ==> !Records(entries[k], key)
  }

  /**
   * The asset loop throws exactly when the array holds a `null` element.
   * Otherwise the record holds exactly the keys written by some entry (plus
   * those it started with), each mapped to the id of the LAST entry that
   * writes it; keys no entry writes keep their value.
   */
  lemma CollectFromSpec(entries: seq<AssetEntry>, acc: map<string, JsValue>)
    ensures CollectFrom(entries, acc).Err? <==> NullAsset in entries
    ensures CollectFrom(entries, acc).Err? ==> CollectFrom(entries, acc).error == NullAssetError
    ensures CollectFrom(entries, acc).Ok? ==>
              var m := CollectFrom(entries, acc).value;
              && (forall key :: key in m <==> key in acc || exists j :: 0 <= j < |entries| && Records(entries[j], key))
              && (forall key, j :: 0 <= j < |entries| && LastRecord(entries, j, key) ==> key in m && m[key] == entries[j].id)
              && (forall key :: key in acc && (forall j :: 0 <= j < |entries| ==> !Records(entries[j], key)) ==>
                    key in m && m[key] == acc[key])
  {
    CollectFromThrows(entries, acc);
    if CollectFrom(entries, acc).Ok? {
      CollectFromKeys(entries, acc);
      CollectFromLast(entries, acc);
      CollectFromUntouched(entries, acc);
    }
  }

  /** The record after the first entry, when it is not `null`. */
  function AccAfter(e: AssetEntry, acc: map<string, JsValue>): map<string, JsValue>
    requires e.Asset?
  {
    if Records(e, ToJsString(e.name)) then acc[ToJsString(e.name) := e.id] else acc
  }

  /** The loop throws exactly on a `null` element, with the V8 message. */
  lemma {:induction false} CollectFromThrows(entries: seq<AssetEntry>, acc: map<string, JsValue>)
    ensures CollectFrom(entries, acc).Err? <==> NullAsset in entries
    ensures CollectFrom(entries, acc).Err? ==> CollectFrom(entries, acc).error == NullAssetError
  {
    if entries != [] && entries[0].Asset? {
      var tail := entries[1..];
      assert entries == [entries[0]] + tail;
      assert NullAsset in entries <==> NullAsset in tail;
      CollectFromThrows(tail, AccAfter(entries[0], acc));
    }
  }

  /** Without a throw, the keys are those started with plus those some
      entry records. */
  lemma {:induction false} CollectFromKeys(entries: seq<AssetEntry>, acc: map<string, JsValue>)
    requires CollectFrom(entries, acc).Ok?
    ensures var m := CollectFrom(entries, acc).value;
            forall key :: key in m <==> key in acc || exists j :: 0 <= j < |entries| && Records(entries[j], key)
  {
    if entries != [] {
      var tail := entries[1..];
      var acc' := AccAfter(entries[0], acc);
      CollectFromKeys(tail, acc');
      assert forall key :: Records(entries[0], key) ==> key == ToJsString(entries[0].name);
      forall key
        ensures (exists j :: 0 <= j < |entries| && Records(entries[j], key)) <==>
                Records(entries[0], key) || exists j :: 0 <= j < |tail| && Records(tail[j], key)
      {
        if exists j :: 0 <= j < |entries| && Records(entries[j], key) {
          var j :| 0 <= j < |entries| && Records(entries[j], key);
          if j > 0 {
            assert Records(tail[j - 1], key);
          }
        }
        if exists j :: 0 <= j < |tail| && Records(tail[j], key) {
          var j :| 0 <= j < |tail| && Records(tail[j], key);
          assert Records(entries[j + 1], key);
        }
      }
    }
  }

  /** Without a throw, a key holds the id of the last entry recording it. */
  lemma {:induction false} CollectFromLast(entries: seq<AssetEntry>, acc: map<string, JsValue>)
    requires CollectFrom(entries, acc).Ok?
    ensures var m := CollectFrom(entries, acc).value;
            forall key, j :: 0 <= j < |entries| && LastRecord(entries, j, key) ==> key in m && m[key] == entries[j].id
  {
    if entries != [] {
      var tail := entries[1..];
      var acc' := AccAfter(entries[0], acc);
      CollectFromLast(tail, acc');
      CollectFromUntouched(tail, acc');
      forall key, j | 0 <= j < |entries| && LastRecord(entries, j, key)
        ensures j > 0 ==> LastRecord(tail, j - 1, key)
        ensures j == 0 ==> key in acc' && acc'[key] == entries[0].id &&
                           forall k :: 0 <= k < |tail| ==> !Records(tail[k], key)
      {
        if j == 0 {
          forall k | 0 <= k < |tail| ensures !Records(tail[k], key) {
            assert tail[k] == entries[k + 1];
          }
        } else {
          forall k | j - 1 < k < |tail| ensures !Records(tail[k], key) {
            assert tail[k] == entries[k + 1];
          }
        }
      }
    }
  }

  /** Without a throw, a key no entry records keeps its value. */
  lemma {:induction false} CollectFromUntouched(entries: seq<AssetEntry>, acc: map<string, JsValue>)
    requires CollectFrom(entries, acc).Ok?
    ensures var m := CollectFrom(entries, acc).value;
            forall key :: key in acc && (forall j :: 0 <= j < |entries| ==> !Records(entries[j], key)) ==>
              key in m && m[key] == acc[key]
  {
    if entries != [] {
      var tail := entries[1..];
      var acc' := AccAfter(entries[0], acc);
      CollectFromUntouched(tail, acc');
      forall key | key in acc && (forall j :: 0 <= j < |entries| ==> !Records(entries[j], key))
        ensures key in acc' && acc'[key] == acc[key]
        ensures forall k :: 0 <= k < |tail| ==> !Records(tail[k], key)
      {
        assert !Records(entries[0], key);
        forall k | 0 <= k < |tail| ensures !Records(tail[k], key) {
          assert tail[k] == entries[k + 1];
        }
      }
    }
  }

  /** An asset list in which no element is `null` and no element writes a
      key yields the empty record. */
  lemma EmptyCollection(list: AssetList)
    requires list.AssetArray? ==> NullAsset !in list.entries
    requires list.AssetArray? ==>
               forall j, key :: 0 <= j < |list.entries| ==> !Records(list.entries[j], key)
    ensures CollectAssets(list) == Ok(map[])
  {
    if list.AssetArray? {
      CollectFromSpec(list.entries, map[]);
    }
  }

  /**
   * Version short-circuit: when the release's version (`tag_name`, or
   * `name` when the tag is falsy) is `===` the recorded one, the result is
   * "no update, no assets" whatever the assets are, and no notice is
   * emitted.
   */
  lemma UpToDateIgnoresAssets(plugin: ManagedPlugin, status: int, statusText: string,
                              tagName: JsValue, releaseName: JsValue, assets: AssetList, other: AssetList)
    requires StrictEquals(plugin.latestVersion, Or(tagName, releaseName))
    ensures Decide(plugin, Response(true, status, statusText, Ok(Release(tagName, releaseName, assets))))
            == Verdict(Some(UpdateInfo(Or(tagName, releaseName), map[], false)), [])
    ensures Decide(plugin, Response(true, status, statusText, Ok(Release(tagName, releaseName, assets))))
            == Decide(plugin, Response(true, status, statusText, Ok(Release(tagName, releaseName, other))))
  {
  }

  /** A release without assets the loop records is a failure with its own
      notice, not an "up to date" answer. */
  lemma NoAssetsIsFailure(plugin: ManagedPlugin, status: int, statusText: string,
                          tagName: JsValue, releaseName: JsValue, assets: AssetList)
    requires !StrictEquals(plugin.latestVersion, Or(tagName, releaseName))
    requires assets.AssetArray? ==> NullAsset !in assets.entries
    requires assets.AssetArray? ==>
               forall j, key :: 0 <= j < |assets.entries| ==> !Records(assets.entries[j], key)
    ensures Decide(plugin, Response(true, status, statusText, Ok(Release(tagName, releaseName, assets))))
            == Verdict(None, [NoAssetsNotice(plugin.name)])
  {
    EmptyCollection(assets);
  }

  /**
   * Every exception inside the checker becomes `null` plus one
   * "Error checking" notice: a rejected fetch, a body `json()` cannot
   * parse, a `null` body, and (when the versions differ) a `null` element
   * of the asset array.
   */
  lemma ExceptionsBecomeNotices(plugin: ManagedPlugin, status: int, statusText: string, reason: string,
                                tagName: JsValue, releaseName: JsValue, entries: seq<AssetEntry>)
    ensures Decide(plugin, Rejected(reason)) == Verdict(None, [ErrorNotice(plugin.name, reason)])
    ensures Decide(plugin, Response(true, status, statusText, Err(reason)))
            == Verdict(None, [ErrorNotice(plugin.name, reason)])
    ensures Decide(plugin, Response(true, status, statusText, Ok(NullBody)))
            == Verdict(None, [ErrorNotice(plugin.name, NullReleaseError)])
    ensures !StrictEquals(plugin.latestVersion, Or(tagName, releaseName)) && NullAsset in entries ==>
              Decide(plugin, Response(true, status, statusText, Ok(Release(tagName, releaseName, AssetArray(entries)))))
              == Verdict(None, [ErrorNotice(plugin.name, NullAssetError)])
  {
    CollectFromSpec(entries, map[]);
  }

  /**
   * Once the version an update reported is recorded, the same release is
   * "up to date" on the next check, with the same request, unless the
   * version is an object, which no later value is ever `===` to.
   */
  lemma RecheckAfterRecording(plugin: ManagedPlugin, fetchFn: Request -> FetchOutcome)
    requires Check(plugin, fetchFn).result.Some?
    ensures var v := Check(plugin, fetchFn).result.value.latestVersion;
            var again := Check(plugin.(latestVersion := v), fetchFn);
            && again.request == Check(plugin, fetchFn).request
            && (!v.Obj? ==> again == CheckOutcome(Some(UpdateInfo(v, map[], false)), [], again.request))
            && (v.Obj? ==> again == Check(plugin, fetchFn))
  {
    var v := Check(plugin, fetchFn).result.value.latestVersion;
    var request := ReleaseRequest(MatchRepoUrl(plugin.repoUrl).value, plugin.githubToken);
    RedecideAfterRecording(plugin, fetchFn(request), v);
  }

  /** The response part of `RecheckAfterRecording`. */
  lemma RedecideAfterRecording(plugin: ManagedPlugin, response: FetchOutcome, v: JsValue)
    requires Decide(plugin, response).result.Some?
    requires v == Decide(plugin, response).result.value.latestVersion
    ensures !v.Obj? ==> Decide(plugin.(latestVersion := v), response) == Verdict(Some(UpdateInfo(v, map[], false)), [])
    ensures v.Obj? ==> Decide(plugin.(latestVersion := v), response) == Decide(plugin, response)
  {
  }

  /** The request URL determines the owner and the repository: distinct
      repositories are never asked for with the same URL. */
  lemma ReleaseUrlInjective(owner1: string, repo1: string, owner2: string, repo2: string)
    requires NoSlash(owner1) && NoSlash(owner2)
    requires ReleaseUrl(owner1, repo1) == ReleaseUrl(owner2, repo2)
    ensures owner1 == owner2 && repo1 == repo2
  {
    var t1 := UrlPath(owner1, repo1);
    var t2 := UrlPath(owner2, repo2);
    assert t1 == t2;
    UrlPathParts(owner1, repo1);
    UrlPathParts(owner2, repo2);
  }

  /** The part of the request URL after the API root. */
  function UrlPath(owner: string, repo: string): (t: string)
    ensures t == ReleaseUrl(owner, repo)[|ApiRoot|..]
  {
    var t := owner + "/" + repo + "/releases/latest";
    assert ReleaseUrl(owner, repo) == ApiRoot + t;
    t
  }

  /** The owner is the run before the first `/` of the path, and the
      repository what lies between it and the fixed tail. */
  lemma UrlPathParts(owner: string, repo: string)
    requires NoSlash(owner)
    ensures var t := UrlPath(owner, repo);
            && RunEnd(t, 0) == |owner|
            && owner == t[..RunEnd(t, 0)]
            && repo == t[RunEnd(t, 0) + 1..|t| - |"/releases/latest"|]
  {
    var t := UrlPath(owner, repo);
    assert t[..|owner|] == owner && t[|owner|] == '/';
    RunEndAt(t, 0, |owner|);
  }

  // Scenarios of the repository's unit tests, with the answers the checker
  // gives; the first three unit tests expect otherwise.

  function TestPlugin(url: string, recorded: JsValue): ManagedPlugin {
    ManagedPlugin("test-plugin", url, recorded, None)
  }

  /** Nothing matches inside a leading `https://`. */
  lemma HttpsPrefix(s: string)
    requires 8 <= |s| && s[..8] == "https://"
    ensures forall k :: 0 <= k < 8 ==> MatchAt(s, k).None?
  {
    forall k | 0 <= k < 8 ensures MatchAt(s, k).None? {
      assert s[k] == s[..8][k];
      NoMatchWithoutG(s, k);
    }
  }

  /** The pieces of the tests' repository URL. */
  lemma TestUrlPieces(s: string)
    requires s == "https://github.com/owner/repo"
    ensures |s| == 29 && s[..8] == "https://"
    ensures s[8..14] == "github" && s[14] == '.' && s[15..18] == "com" && s[18] == '/'
    ensures s[19..24] == "owner" && s[24] == '/' && s[25..29] == "repo"
  {
    assert s[..8] == "https://";
    assert s[8..14] == "github";
    assert s[15..18] == "com";
    assert s[19..24] == "owner";
    assert s[25..29] == "repo";
  }

  lemma TestUrlGroups(s: string)
    requires s == "https://github.com/owner/repo"
    ensures MatchesAt(s, 8, "owner", "repo")
  {
    TestUrlPieces(s);
    ExactLiteral(s, 8, "github");
    ExactLiteral(s, 15, "com");
  }

  /** The tests' repository URL names `owner/repo`, found at position 8. */
  lemma TestUrlMatches(s: string)
    requires s == "https://github.com/owner/repo"
    ensures MatchRepoUrl(s) == Some(RepoMatch(8, "owner", "repo"))
  {
    TestUrlPieces(s);
    HttpsPrefix(s);
    TestUrlGroups(s);
    FindSkips(s, 0, 8);
    MatchAtComplete(s, 8, "owner", "repo");
  }

  /** The request for the test repository, without a token. */
  lemma TestUrlRequest(url: string)
    requires url == "https://github.com/owner/repo"
    ensures MatchRepoUrl(url).Some?
    ensures ReleaseRequest(MatchRepoUrl(url).value, None)
            == Request(ReleaseUrl("owner", "repo"), map["Accept" := GithubJson])
  {
    TestUrlMatches(url);
    assert StripGitSuffix("repo") == "repo";
  }

  /** In the GitLab URL, the only `g` is the one at 8, where `github` is
      not spelled out. */
  lemma GitlabUrlPieces(s: string)
    requires s == "https://gitlab.com/owner/repo"
    ensures 9 <= |s| && s[..8] == "https://" && s[11] == 'l'
    ensures forall k :: 9 <= k < |s| ==> !FoldsTo(s[k], 'g')
  {
    var tail := "itlab.com/owner/repo";
    assert s[9..] == tail;
    forall k | 9 <= k < |s| ensures !FoldsTo(s[k], 'g') {
      assert s[k] == tail[k - 9];
    }
  }

  /** A GitLab URL is unsupported: `null`, one notice, and no request. */
  lemma UnsupportedRepoScenario(s: string, fetchFn: Request -> FetchOutcome)
    requires s == "https://gitlab.com/owner/repo"
    ensures Check(TestPlugin(s, Undefined), fetchFn)
            == CheckOutcome(None, [UnsupportedNotice(s)], None)
  {
    GitlabUrlPieces(s);
    HttpsPrefix(s);
    assert !LiteralAt(s, 8, "github") by { assert "github"[3] == 'h'; }
    assert MatchAt(s, 8).None?;
    FindSkips(s, 0, 9);
    NoMatchWithoutGFrom(s, 9);
    assert MatchRepoUrl(s) == None;
  }

  /** A character outside the Basic Multilingual Plane where the pattern
      has its `.` is two code units, so the URL is unsupported. */
  lemma AstralDotScenario(s: string, fetchFn: Request -> FetchOutcome)
    requires s == "github\U{1F600}com/a/b"
    ensures Check(TestPlugin(s, Undefined), fetchFn)
            == CheckOutcome(None, [UnsupportedNotice(s)], None)
  {
    assert !DotMatches(s[6]);
    assert MatchAt(s, 0).None?;
    FindSkips(s, 0, 1);
    assert forall k :: 1 <= k < |s| ==> !FoldsTo(s[k], 'g');
    NoMatchWithoutGFrom(s, 1);
    assert MatchRepoUrl(s) == None;
  }

  /** A response that is not ok gives `null` and no notice at all. */
  lemma FailedFetchScenario(url: string, fetchFn: Request -> FetchOutcome)
    requires url == "https://github.com/owner/repo"
    requires forall r :: fetchFn(r).Response? && !fetchFn(r).ok
    ensures Check(TestPlugin(url, Undefined), fetchFn).result == None
    ensures Check(TestPlugin(url, Undefined), fetchFn).notices == []
  {
    TestUrlMatches(url);
  }

  function ReleaseOf(version: string, entries: seq<AssetEntry>): Request -> FetchOutcome {
    _ => Response(true, 200, "OK", Ok(Release(Str(version), Undefined, AssetArray(entries))))
  }

  /** The three assets of the tests, carrying download URLs but no ids. */
  const UrlAssets := [
    Asset(Str("main.js"), Undefined),
    Asset(Str("styles.css"), Undefined),
    Asset(Str("manifest.json"), Undefined)]

  /** The same assets with numeric ids. */
  const IdAssets := [
    Asset(Str("main.js"), Num(1)),
    Asset(Str("styles.css"), Num(2)),
    Asset(Str("manifest.json"), Num(3))]

  /** The recorded version equals the tag: no update, no assets. */
  lemma UpToDateScenario(url: string)
    requires url == "https://github.com/owner/repo"
    ensures Check(TestPlugin(url, Str("v1.0.1")), ReleaseOf("v1.0.1", UrlAssets)).result
            == Some(UpdateInfo(Str("v1.0.1"), map[], false))
  {
    TestUrlMatches(url);
  }

  /** Assets without a numeric id are not collected, so a release whose
      assets carry only download URLs is reported as having none. */
  lemma UrlOnlyAssetsScenario(url: string)
    requires url == "https://github.com/owner/repo"
    ensures Check(TestPlugin(url, Undefined), ReleaseOf("v1.0.1", UrlAssets))
            == CheckOutcome(None, [NoAssetsNotice("test-plugin")],
                            Some(Request(ReleaseUrl("owner", "repo"), map["Accept" := GithubJson])))
  {
    TestUrlRequest(url);
    UrlAssetsRecordNothing();
    NoAssetsIsFailure(TestPlugin(url, Undefined), 200, "OK", Str("v1.0.1"), Undefined, AssetArray(UrlAssets));
  }

  /** Assets without an id record nothing. */
  lemma UrlAssetsRecordNothing()
    ensures forall j, key :: 0 <= j < |UrlAssets| ==> !Records(UrlAssets[j], key)
  {
    forall j, key | 0 <= j < |UrlAssets| ensures !Records(UrlAssets[j], key) {
      assert UrlAssets[j].id == Undefined;
    }
  }

  /** One named asset with a numeric id is recorded under its name. */
  lemma CollectNamed(name: string, id: int, rest: seq<AssetEntry>, acc: map<string, JsValue>)
    requires name != "" && name != "__proto__"
    ensures CollectFrom([Asset(Str(name), Num(id))] + rest, acc) == CollectFrom(rest, acc[name := Num(id)])
  {
    var entries := [Asset(Str(name), Num(id))] + rest;
    assert entries[0] == Asset(Str(name), Num(id)) && entries[1..] == rest;
    assert Records(entries[0], name);
  }

  /** The three asset ids of the tests are all collected. */
  lemma CollectIdAssets()
    ensures CollectAssets(AssetArray(IdAssets))
            == Ok(map["main.js" := Num(1), "styles.css" := Num(2), "manifest.json" := Num(3)])
  {
    var e3 := [Asset(Str("manifest.json"), Num(3))];
    var e2 := [Asset(Str("styles.css"), Num(2))] + e3;
    assert IdAssets == [Asset(Str("main.js"), Num(1))] + e2;
    CollectNamed("main.js", 1, e2, map[]);
    CollectNamed("styles.css", 2, e3, map["main.js" := Num(1)]);
    CollectNamed("manifest.json", 3, [], map["main.js" := Num(1), "styles.css" := Num(2)]);
    assert [Asset(Str("manifest.json"), Num(3))] + [] == e3;
  }

  /** A supported URL whose release has a version other than the recorded
      one and collects a non-empty record gets that version and that
      record as an update, with no notice. */
  lemma FoundAssetsAreUpdate(plugin: ManagedPlugin, fetchFn: Request -> FetchOutcome, status: int, statusText: string,
                             tagName: JsValue, name: JsValue, assets: AssetList, found: map<string, JsValue>)
    requires MatchRepoUrl(plugin.repoUrl).Some?
    requires fetchFn(ReleaseRequest(MatchRepoUrl(plugin.repoUrl).value, plugin.githubToken))
             == Response(true, status, statusText, Ok(Release(tagName, name, assets)))
    requires !StrictEquals(plugin.latestVersion, Or(tagName, name))
    requires CollectAssets(assets) == Ok(found) && found != map[]
    ensures Check(plugin, fetchFn).result == Some(UpdateInfo(Or(tagName, name), found, true))
    ensures Check(plugin, fetchFn).notices == []
  {
  }

  /** With ids, every named asset is collected and an update is
      reported. */
  lemma AssetIdsScenario(url: string)
    requires url == "https://github.com/owner/repo"
    ensures Check(TestPlugin(url, Undefined), ReleaseOf("v1.0.1", IdAssets)).result
            == Some(UpdateInfo(Str("v1.0.1"),
                               map["main.js" := Num(1), "styles.css" := Num(2), "manifest.json" := Num(3)],
                               true))
  {
    TestUrlMatches(url);
    CollectIdAssets();
    var found := map["main.js" := Num(1), "styles.css" := Num(2), "manifest.json" := Num(3)];
    assert "main.js" in found;
    FoundAssetsAreUpdate(TestPlugin(url, Undefined), ReleaseOf("v1.0.1", IdAssets), 200, "OK",
                         Str("v1.0.1"), Undefined, AssetArray(IdAssets), found);
  }

  /** No required-file check: a release with `main.js` alone is an
      update carrying that one asset. */
  lemma SingleAssetScenario(url: string)
    requires url == "https://github.com/owner/repo"
    ensures Check(TestPlugin(url, Undefined), ReleaseOf("v1.0.0", [Asset(Str("main.js"), Num(7))])).result
            == Some(UpdateInfo(Str("v1.0.0"), map["main.js" := Num(7)], true))
  {
    TestUrlMatches(url);
    CollectNamed("main.js", 7, [], map[]);
    assert [Asset(Str("main.js"), Num(7))] + [] == [Asset(Str("main.js"), Num(7))];
    assert "main.js" in map["main.js" := Num(7)];
    FoundAssetsAreUpdate(TestPlugin(url, Undefined), ReleaseOf("v1.0.0", [Asset(Str("main.js"), Num(7))]), 200, "OK",
                         Str("v1.0.0"), Undefined, AssetArray([Asset(Str("main.js"), Num(7))]), map["main.js" := Num(7)]);
  }

  /** A release with neither `tag_name` nor `name` counts as "up to date"
      for a plugin that was never installed: `undefined === undefined`. */
  lemma BothVersionsUndefinedScenario(url: string, assets: AssetList)
    requires url == "https://github.com/owner/repo"
    ensures Check(TestPlugin(url, Undefined),
                  _ => Response(true, 200, "OK", Ok(Release(Undefined, Undefined, assets)))).result
            == Some(UpdateInfo(Undefined, map[], false))
  {
    TestUrlMatches(url);
  }
}
