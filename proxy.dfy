/**
 * `GET /proxy/github/:owner/:repo/:tag/:assetName?`: which release asset is
 * streamed back, from which URL and under which file name. The two HTTP
 * requests are the parameters `release` (the release data behind the REST
 * URL, `None` when the request or the reading of `assets` throws) and
 * `download` (whether the asset request succeeds).
 */
module AssetProxy {
  import opened Outcomes
  import opened JsStrings

  /** One entry of a release's `assets` array. */
  datatype Asset = Asset(name: string, browserDownloadUrl: string)

  datatype Github = Github(release: string -> Option<seq<Asset>>, download: string -> bool)

  datatype ProxyResponse =
    | Streamed(url: string, fileName: string)  // 200, `Content-Disposition: attachment; filename=<fileName>`
    | AssetNotFound                           // 404 "Asset not found in the release."
    | ReleaseLookupFailed                     // 500 "Error fetching release data from GitHub."
    | DownloadFailed                          // 500 "Failed to fetch GitHub asset."

  function ReleaseApiUrl(owner: string, repo: string, tag: string): string {
    "https://api.github.com/repos/" + owner + "/" + repo + "/releases/tags/" + tag
  }

  /** `${repo}-${tag}.zip` */
  function DefaultFileName(repo: string, tag: string): string {
    repo + "-" + tag + ".zip"
  }

  /** The release download URL GitHub uses for a source archive attached under its default name. */
  function ConventionalUrl(owner: string, repo: string, tag: string): string {
    "https://github.com/" + owner + "/" + repo + "/releases/download/" + tag + "/" + DefaultFileName(repo, tag)
  }

  /** `assets.find(a => a.name === name)`, as the position of the match. */
  function FindAsset(assets: seq<Asset>, name: string): (r: Option<nat>)
    ensures r.Some? ==> r.value < |assets| && assets[r.value].name == name
    ensures r.Some? ==> forall j :: 0 <= j < r.value ==> assets[j].name != name
    ensures r.None? <==> forall j :: 0 <= j < |assets| ==> assets[j].name != name
  {
    if assets == [] then None
    else if assets[0].name == name then Some(0)
    else match FindAsset(assets[1..], name)
      case None => None
      case Some(i) => Some(i + 1)
  }

  /** The file name the response announces: the trimmed asset name, or the conventional one. */
  function DownloadFileName(repo: string, tag: string, assetName: Option<string>): string {
    if NonBlank(assetName) then Trim(assetName.value) else DefaultFileName(repo, tag)
  }

  /** The handler's decision, from the route parameters and the two remote answers. */
  function Resolve(owner: string, repo: string, tag: string, assetName: Option<string>, gh: Github): (r: ProxyResponse)
    ensures r.Streamed? ==> gh.download(r.url) && r.fileName == DownloadFileName(repo, tag, assetName)
    ensures r.Streamed? && !NonBlank(assetName) ==> r.url == ConventionalUrl(owner, repo, tag)
    ensures (r.AssetNotFound? || r.ReleaseLookupFailed?) ==> NonBlank(assetName)
  {
    var url: Option<string> :=
      if NonBlank(assetName) then
        match gh.release(ReleaseApiUrl(owner, repo, tag))
        case None => None
        case Some(assets) =>
          match FindAsset(assets, Trim(assetName.value))
          case None => None
          case Some(i) => Some(assets[i].browserDownloadUrl)
      else Some(ConventionalUrl(owner, repo, tag));
    if url.None? then
      if gh.release(ReleaseApiUrl(owner, repo, tag)).None? then ReleaseLookupFailed else AssetNotFound
    else if !gh.download(url.value) then DownloadFailed
    else Streamed(url.value, DownloadFileName(repo, tag, assetName))
  }

  /**
   * With a non-blank name: the lookup failing is reported as such; otherwise
   * the asset streamed is the first one named exactly like the trimmed name,
   * and "not found" is answered exactly when the release has none. Once that
   * asset is found, it is streamed exactly when its download succeeds.
   */
  lemma ResolveNamed(owner: string, repo: string, tag: string, assetName: Option<string>, gh: Github)
    requires NonBlank(assetName)
    ensures var r := Resolve(owner, repo, tag, assetName, gh);
            var rel := gh.release(ReleaseApiUrl(owner, repo, tag));
            var name := Trim(assetName.value);
            && (r.ReleaseLookupFailed? <==> rel.None?)
            && (rel.Some? ==> (r.AssetNotFound? <==> forall j :: 0 <= j < |rel.value| ==> rel.value[j].name != name))
            && (rel.Some? && FindAsset(rel.value, name).Some? ==>
                  var u := rel.value[FindAsset(rel.value, name).value].browserDownloadUrl;
                  r == if gh.download(u) then Streamed(u, name) else DownloadFailed)
            && (r.Streamed? ==>
                  && r.fileName == name
                  && exists i :: (0 <= i < |rel.value| && rel.value[i].name == name && r.url == rel.value[i].browserDownloadUrl
                                  && forall j :: 0 <= j < i ==> rel.value[j].name != name))
  {
    var rel := gh.release(ReleaseApiUrl(owner, repo, tag));
    var name := Trim(assetName.value);
    if rel.Some? && FindAsset(rel.value, name).Some? {
      var i := FindAsset(rel.value, name).value;
      assert 0 <= i < |rel.value| && rel.value[i].name == name;
    }
  }

  /**
   * With a blank or absent name no lookup happens: the outcome does not
   * depend on the release data, and it is the conventional archive.
   */
  lemma ResolveUnnamed(owner: string, repo: string, tag: string, assetName: Option<string>, gh: Github, other: Github)
    requires !NonBlank(assetName) && other.download == gh.download
    ensures Resolve(owner, repo, tag, assetName, gh) == Resolve(owner, repo, tag, assetName, other)
    ensures gh.download(ConventionalUrl(owner, repo, tag)) ==>
              Resolve(owner, repo, tag, assetName, gh) == Streamed(ConventionalUrl(owner, repo, tag), repo + "-" + tag + ".zip")
    ensures !gh.download(ConventionalUrl(owner, repo, tag)) ==> Resolve(owner, repo, tag, assetName, gh) == DownloadFailed
  {
  }

  lemma TrimGameZip()
    ensures Trim(" game.zip ") == "game.zip" && Trim("game.zip") == "game.zip"
  {
    var s := " game.zip ";
    assert SkipWhiteSpace(s, 0) == 1 by { assert !IsWhiteSpace(s[1]); }
    assert SkipWhiteSpaceBack(s, 1, |s|) == |s| - 1 by { assert !IsWhiteSpace(s[|s| - 2]); }
    assert s[1..|s| - 1] == "game.zip";
    var t := "game.zip";
    assert SkipWhiteSpace(t, 0) == 0 by { assert !IsWhiteSpace(t[0]); }
    assert SkipWhiteSpaceBack(t, 0, |t|) == |t| by { assert !IsWhiteSpace(t[|t| - 1]); }
    assert t[0..|t|] == t;
  }

  /** Two non-blank names that trim to the same string are answered alike. */
  lemma ResolveByTrimmedName(owner: string, repo: string, tag: string, a: string, b: string, gh: Github)
    requires NonBlank(Some(a)) && NonBlank(Some(b)) && Trim(a) == Trim(b)
    ensures Resolve(owner, repo, tag, Some(a), gh) == Resolve(owner, repo, tag, Some(b), gh)
  {
    assert DownloadFileName(repo, tag, Some(a)) == DownloadFileName(repo, tag, Some(b));
  }

  /** Surrounding white space in the requested name is ignored, both for the match and for the file name. */
  lemma ResolveTrimsName(owner: string, repo: string, tag: string, gh: Github)
    ensures Resolve(owner, repo, tag, Some(" game.zip "), gh) == Resolve(owner, repo, tag, Some("game.zip"), gh)
  {
    TrimGameZip();
    ResolveByTrimmedName(owner, repo, tag, " game.zip ", "game.zip", gh);
  }
}
