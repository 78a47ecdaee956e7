/**
 * `checkSinglePluginForUpdate`: asks GitHub for the latest release of one
 * managed plugin and decides whether it is newer than the recorded version.
 *
 * The injected `fetchFn` is a function from the request issued to what the
 * call produced.  The outcome records the value returned, the notices
 * passed to `noticeFn` (in order), and the one request issued, if any.
 */
module ReleaseChecker {
  import opened Wrappers
  import opened JsValues
  import opened RepoUrl

  /**
   * A plugin the manager keeps up to date.  `latestVersion` is the version
   * recorded at the last install (`Undefined` before any); `githubToken` is
   * `None` when it is undefined.
   */
  datatype ManagedPlugin = ManagedPlugin(
    name: string,
    repoUrl: string,
    latestVersion: JsValue,
    githubToken: Option<string>)

  /** A call `fetchFn(url, { headers })`. */
  datatype Request = Request(url: string, headers: map<string, string>)

  /** One element of the release's `assets` array: its `name` and `id`
      properties (`Undefined` when missing), or `null`. */
  datatype AssetEntry = NullAsset | Asset(name: JsValue, id: JsValue)

  /** The release's `assets` property: an array, or anything else. */
  datatype AssetList = NotAnArray | AssetArray(entries: seq<AssetEntry>)

  /** The value `releaseRes.json()` resolves to: `null`, or a value whose
      `tag_name`, `name` and `assets` properties are given. */
  datatype ReleaseBody = NullBody | Release(tagName: JsValue, name: JsValue, assets: AssetList)

  /** What the call to `fetchFn` produced: a rejection, or a response whose
      `json()` resolves to a body or rejects. */
  datatype FetchOutcome =
    | Rejected(reason: string)
    | Response(ok: bool, status: int, statusText: string, json: Result<ReleaseBody>)

  /** The non-null value the checker returns; `assets` maps asset names to
      asset ids. */
  datatype UpdateInfo = UpdateInfo(latestVersion: JsValue, assets: map<string, JsValue>, updateAvailable: bool)

  /** What happens after the response arrives: the value returned and the
      notices emitted. */
  datatype Verdict = Verdict(result: Option<UpdateInfo>, notices: seq<string>)

  /** A whole call of the checker. */
  datatype CheckOutcome = CheckOutcome(result: Option<UpdateInfo>, notices: seq<string>, request: Option<Request>)

  const ApiRoot := "https://api.github.com/repos/"
  const GithubJson := "application/vnd.github+json"

  /** What V8 throws when a property of `null` is read. */
  const NullReleaseError := "TypeError: Cannot read properties of null (reading 'tag_name')"
  const NullAssetError := "TypeError: Cannot read properties of null (reading 'name')"

  function UnsupportedNotice(url: string): string {
    "Unsupported repo: " + url
  }

  function NoAssetsNotice(name: string): string {
    "Release for " + name + " has no downloadable assets."
  }

  function ErrorNotice(name: string, error: string): string {
    "Error checking " + name + ": " + error
  }

  /** `if (plugin.githubToken)`: a token is used when it is a non-empty
      string. */
  predicate HasToken(token: Option<string>) {
    token.Some? && token.value != ""
  }

  /** The request headers: always the GitHub JSON media type, and a bearer
      token exactly when one is set. */
  function ReleaseHeaders(token: Option<string>): (h: map<string, string>)
    ensures h.Keys == if HasToken(token) then {"Accept", "Authorization"} else {"Accept"}
    ensures h["Accept"] == GithubJson
    ensures HasToken(token) ==> h["Authorization"] == "Bearer " + token.value
  {
    var accept := map["Accept" := GithubJson];
    if HasToken(token) then accept["Authorization" := "Bearer " + token.value] else accept
  }

  /** The "latest release" endpoint of `owner/repo`. */
  function ReleaseUrl(owner: string, repo: string): string {
    ApiRoot + owner + "/" + repo + "/releases/latest"
  }

  /** The request issued for a match of the repository URL. */
  function ReleaseRequest(m: RepoMatch, token: Option<string>): Request {
    Request(ReleaseUrl(m.owner, StripGitSuffix(m.repo)), ReleaseHeaders(token))
  }

  /** `asset.name && typeof asset.id === 'number'`, and the assignment
      `assets[asset.name] = asset.id` then adds the key `key`: a key
      `__proto__` hits the prototype setter, which ignores numbers. */
  predicate Records(e: AssetEntry, key: string) {
    e.Asset? && Truthy(e.name) && e.id.Num? && ToJsString(e.name) == key && key != "__proto__"
  }

  /** The asset loop from accumulated record `acc` onwards; reading `name`
      of a `null` element throws. */
  function CollectFrom(entries: seq<AssetEntry>, acc: map<string, JsValue>): Result<map<string, JsValue>> {
    if entries == [] then Ok(acc)
    else
      match entries[0]
      case NullAsset => Err(NullAssetError)
      case Asset(name, id) =>
        var key := ToJsString(name);
        CollectFrom(entries[1..], if Records(entries[0], key) then acc[key := id] else acc)
  }

  /** The asset record built from the release's `assets` property; a value
      that is not an array contributes nothing. */
  function CollectAssets(list: AssetList): Result<map<string, JsValue>> {
    match list
    case NotAnArray => Ok(map[])
    case AssetArray(entries) => CollectFrom(entries, map[])
  }

  /** `info` is what the checker builds from an ok response carrying a
      release: its version is `tag_name || name`, and when it reports an
      update its assets are the record the asset loop built. */
  predicate FromRelease(response: FetchOutcome, info: UpdateInfo) {
    && response.Response? && response.ok && response.json.Ok? && response.json.value.Release?
    && info.latestVersion == Or(response.json.value.tagName, response.json.value.name)
    && (info.updateAvailable ==> CollectAssets(response.json.value.assets) == Ok(info.assets))
  }

  /**
   * Everything after `fetchFn` was called.  A result is returned only
   * without a notice; it reports an update exactly when the release's
   * version is not `===` the recorded one, and then exactly when it carries
   * assets.  With an equal version the assets are never looked at.
   */
  function Decide(plugin: ManagedPlugin, response: FetchOutcome): (v: Verdict)
    ensures |v.notices| <= 1
    ensures v.result.Some? ==> v.notices == []
    ensures v.result.Some? ==> (v.result.value.updateAvailable <==> v.result.value.assets != map[])
    ensures v.result.Some? ==>
              (v.result.value.updateAvailable <==> !StrictEquals(plugin.latestVersion, v.result.value.latestVersion))
    ensures response.Response? && !response.ok ==> v == Verdict(None, [])
    ensures v.result.Some? ==> FromRelease(response, v.result.value)
  {
    match response
    case Rejected(reason) => Verdict(None, [ErrorNotice(plugin.name, reason)])
    case Response(ok, _, _, json) =>
      if !ok then Verdict(None, [])
      else
        match json
        case Err(reason) => Verdict(None, [ErrorNotice(plugin.name, reason)])
        case Ok(NullBody) => Verdict(None, [ErrorNotice(plugin.name, NullReleaseError)])
        case Ok(Release(tagName, releaseName, assets)) =>
          var latest := Or(tagName, releaseName);
          if StrictEquals(plugin.latestVersion, latest) then
            Verdict(Some(UpdateInfo(latest, map[], false)), [])
          else
            match CollectAssets(assets)
            case Err(reason) => Verdict(None, [ErrorNotice(plugin.name, reason)])
            case Ok(found) =>
              if found == map[] then Verdict(None, [NoAssetsNotice(plugin.name)])
              else Verdict(Some(UpdateInfo(latest, found, true)), [])
  }

  /**
   * The checker as a whole.  An unsupported URL yields `null`, exactly one
   * notice naming it, and no request; otherwise exactly one request is
   * issued, to the latest-release endpoint of the matched owner and the
   * repository without `.git`, with the headers above.
   */
  function Check(plugin: ManagedPlugin, fetchFn: Request -> FetchOutcome): (r: CheckOutcome)
    ensures r.request.None? <==> MatchRepoUrl(plugin.repoUrl).None?
    ensures r.request.None? ==> r.result.None? && r.notices == [UnsupportedNotice(plugin.repoUrl)]
    ensures MatchRepoUrl(plugin.repoUrl).Some? ==>
              r.request == Some(ReleaseRequest(MatchRepoUrl(plugin.repoUrl).value, plugin.githubToken))
    ensures |r.notices| <= 1
    ensures r.result.Some? ==> r.notices == []
    ensures r.result.Some? ==> (r.result.value.updateAvailable <==> r.result.value.assets != map[])
    ensures r.result.Some? ==>
              (r.result.value.updateAvailable <==> !StrictEquals(plugin.latestVersion, r.result.value.latestVersion))
    ensures r.result.Some? ==> r.request.Some? && FromRelease(fetchFn(r.request.value), r.result.value)
  {
    match MatchRepoUrl(plugin.repoUrl)
    case None => CheckOutcome(None, [UnsupportedNotice(plugin.repoUrl)], None)
    case Some(m) =>
      var request := ReleaseRequest(m, plugin.githubToken);
      var v := Decide(plugin, fetchFn(request));
      CheckOutcome(v.result, v.notices, Some(request))
  }

  /** The asset loop, filling the record in place. */
  method CollectAssetIds(entries: seq<AssetEntry>) returns (r: Result<map<string, JsValue>>)
    ensures r == CollectFrom(entries, map[])
  {
    var assets: map<string, JsValue> := map[];
    var i := 0;
    while i < |entries|
      invariant 0 <= i <= |entries|
      invariant CollectFrom(entries[i..], assets) == CollectFrom(entries, map[])
    {
      assert entries[i..][0] == entries[i] && entries[i..][1..] == entries[i + 1..];
      match entries[i]
      case NullAsset =>
        return Err(NullAssetError);
      case Asset(name, id) =>
        var key := ToJsString(name);
        if Truthy(name) && id.Num? && key != "__proto__" {
          assets := assets[key := id];
        }
      i := i + 1;
    }
    return Ok(assets);
  }

  /** `checkSinglePluginForUpdate(plugin, fetchFn, noticeFn)`. */
  method CheckSinglePluginForUpdate(plugin: ManagedPlugin, fetchFn: Request -> FetchOutcome)
    returns (outcome: CheckOutcome)
    ensures outcome == Check(plugin, fetchFn)
  {
    var found := MatchRepoUrl(plugin.repoUrl);
    if found.None? {
      return CheckOutcome(None, [UnsupportedNotice(plugin.repoUrl)], None);
    }
    var request := ReleaseRequest(found.value, plugin.githubToken);
    var response := fetchFn(request);
    if response.Rejected? {
      return CheckOutcome(None, [ErrorNotice(plugin.name, response.reason)], Some(request));
    }
    if !response.ok {
      return CheckOutcome(None, [], Some(request));
    }
    if response.json.Err? {
      return CheckOutcome(None, [ErrorNotice(plugin.name, response.json.error)], Some(request));
    }
    var release := response.json.value;
    if release.NullBody? {
      return CheckOutcome(None, [ErrorNotice(plugin.name, NullReleaseError)], Some(request));
    }
    var latest := Or(release.tagName, release.name);
    if StrictEquals(plugin.latestVersion, latest) {
      return CheckOutcome(Some(UpdateInfo(latest, map[], false)), [], Some(request));
    }
    var assets: Result<map<string, JsValue>> := Ok(map[]);
    if release.assets.AssetArray? {
      assets := CollectAssetIds(release.assets.entries);
    }
    if assets.Err? {
      return CheckOutcome(None, [ErrorNotice(plugin.name, assets.error)], Some(request));
    }
    if assets.value == map[] {
      return CheckOutcome(None, [NoAssetsNotice(plugin.name)], Some(request));
    }
    return CheckOutcome(Some(UpdateInfo(latest, assets.value, true)), [], Some(request));
  }
}
