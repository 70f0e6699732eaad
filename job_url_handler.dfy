/** `convertGithubApiUrlToRawUrl`: rewrites a GitHub contents-API address
    into the raw-content address of the same file. */
module JobUrlHandler {
  import opened Strings
  import opened JsValues

  /** The parts of `new URL(apiUrl)` the conversion reads: the host name,
      the path, and the `ref` query parameter (`None` when absent). */
  datatype ParsedUrl = ParsedUrl(hostname: string, pathname: string, refParam: Option<string>)

  const ApiHost := "api.github.com"
  const RawPrefix := "https://raw.githubusercontent.com/"

  /** The path's segments with the empty ones (from leading, trailing or
      doubled slashes) dropped. */
  function PathParts(pathname: string): (parts: seq<string>)
    ensures forall i :: 0 <= i < |parts| ==> parts[i] != "" && '/' !in parts[i]
  {
    NonEmpty(SplitOn(pathname, '/'))
  }

  /** The branch or tag: the `ref` parameter unless it is absent or empty. */
  function RefOrMain(refParam: Option<string>): (r: string)
    ensures r != ""
    ensures refParam.Some? && refParam.value != "" ==> r == refParam.value
  {
    if refParam.Some? && refParam.value != "" then refParam.value else "main"
  }

  /** `convertGithubApiUrlToRawUrl(apiUrl)`, where `url` is `None` when
      `new URL(apiUrl)` throws; `None` in the result is `null`. */
  function ConvertGithubApiUrlToRawUrl(url: Option<ParsedUrl>): (r: Option<string>)
    ensures url.None? || url.value.hostname != ApiHost ==> r.None?
    ensures url.Some? && url.value.hostname == ApiHost ==>
      (r.Some? <==> |PathParts(url.value.pathname)| >= 4 && PathParts(url.value.pathname)[0] == "repos")
    ensures r.Some? ==> StartsWith(r.value, RawPrefix)
  {
    if url.None? then None
    else if url.value.hostname != ApiHost then None
    else
      var pathParts := PathParts(url.value.pathname);
      if |pathParts| < 4 || pathParts[0] != "repos" then None
      else
        var owner := pathParts[1];
        var repo := pathParts[2];
        var ref := RefOrMain(url.value.refParam);
        var filePath := Join(pathParts[4..], "/");
        Some(RawPrefix + owner + "/" + repo + "/" + ref + "/" + filePath)
  }

  /** A leading slash only adds an empty segment, which is dropped. */
  lemma LeadingSlash(x: string)
    ensures PathParts("/" + x) == PathParts(x)
  {
    var s := "/" + x;
    assert IndexFrom(s, '/', 0) == 0;
    assert s[1..] == x;
    assert SplitOn(s, '/') == [""] + SplitOn(x, '/');
    assert ([""] + SplitOn(x, '/'))[1..] == SplitOn(x, '/');
  }

  /** The path of a contents-API address built from its segments. */
  function ApiPath(owner: string, repo: string, kind: string, file: seq<string>): string
  {
    "/" + Join(["repos", owner, repo, kind] + file, "/")
  }

  /** The conversion undoes the construction of an API address: owner,
      repository and file segments come back in place, with the branch from
      `ref` or `main`. The segment after the repository (normally
      `contents`) is not looked at. */
  lemma {:induction false} ConvertsApiPath(owner: string, repo: string, kind: string, file: seq<string>,
                                           refParam: Option<string>)
    requires owner != "" && repo != "" && kind != ""
    requires '/' !in owner && '/' !in repo && '/' !in kind
    requires forall i :: 0 <= i < |file| ==> file[i] != "" && '/' !in file[i]
    ensures ConvertGithubApiUrlToRawUrl(Some(ParsedUrl(ApiHost, ApiPath(owner, repo, kind, file), refParam)))
      == Some(RawPrefix + owner + "/" + repo + "/" + RefOrMain(refParam) + "/" + Join(file, "/"))
  {
    var parts := ["repos", owner, repo, kind] + file;
    ApiPathParts(owner, repo, kind, file);
    assert parts[1] == owner && parts[2] == repo && parts[4..] == file;
  }

  /** The segments of a built API path are the ones it was built from. */
  lemma ApiPathParts(owner: string, repo: string, kind: string, file: seq<string>)
    requires owner != "" && repo != "" && kind != ""
    requires '/' !in owner && '/' !in repo && '/' !in kind
    requires forall i :: 0 <= i < |file| ==> file[i] != "" && '/' !in file[i]
    ensures PathParts(ApiPath(owner, repo, kind, file)) == ["repos", owner, repo, kind] + file
  {
    var parts := ["repos", owner, repo, kind] + file;
    assert forall i :: 0 <= i < |parts| ==> parts[i] != "" && '/' !in parts[i];
    SplitJoin(parts, '/');
    LeadingSlash(Join(parts, "/"));
  }

  /** Whatever stands where `contents` normally does, the result is the same. */
  lemma KindIgnored(owner: string, repo: string, kind1: string, kind2: string, file: seq<string>,
                    refParam: Option<string>)
    requires owner != "" && repo != "" && kind1 != "" && kind2 != ""
    requires '/' !in owner && '/' !in repo && '/' !in kind1 && '/' !in kind2
    requires forall i :: 0 <= i < |file| ==> file[i] != "" && '/' !in file[i]
    ensures ConvertGithubApiUrlToRawUrl(Some(ParsedUrl(ApiHost, ApiPath(owner, repo, kind1, file), refParam)))
      == ConvertGithubApiUrlToRawUrl(Some(ParsedUrl(ApiHost, ApiPath(owner, repo, kind2, file), refParam)))
  {
    ConvertsApiPath(owner, repo, kind1, file, refParam);
    ConvertsApiPath(owner, repo, kind2, file, refParam);
  }

  /** An absent `ref` and an empty one both mean `main`. */
  lemma DefaultRef(hostname: string, pathname: string)
    ensures ConvertGithubApiUrlToRawUrl(Some(ParsedUrl(hostname, pathname, None)))
      == ConvertGithubApiUrlToRawUrl(Some(ParsedUrl(hostname, pathname, Some(""))))
      == ConvertGithubApiUrlToRawUrl(Some(ParsedUrl(hostname, pathname, Some("main"))))
  {
  }

  /** The address of `docs/index.json` on branch `dev` of `acme/repo`. */
  lemma Example(file: seq<string>)
    requires file == ["docs", "index.json"]
    ensures ConvertGithubApiUrlToRawUrl(
      Some(ParsedUrl(ApiHost, ApiPath("acme", "repo", "contents", file), Some("dev"))))
      == Some(RawPrefix + "acme/repo/dev/docs/index.json")
  {
    ConvertsApiPath("acme", "repo", "contents", file, Some("dev"));
    ExampleAddress(file, RefOrMain(Some("dev")));
  }

  lemma ExampleAddress(file: seq<string>, ref: string)
    requires file == ["docs", "index.json"] && ref == "dev"
    ensures RawPrefix + "acme" + "/" + "repo" + "/" + ref + "/" + Join(file, "/")
      == RawPrefix + "acme/repo/dev/docs/index.json"
  {
    JoinCons("docs", ["index.json"], "/");
    var tail := "acme" + "/" + "repo" + "/" + ref + "/" + Join(file, "/");
    assert tail == "acme/repo/dev/docs/index.json";
    assert RawPrefix + "acme" + "/" + "repo" + "/" + ref + "/" + Join(file, "/") == RawPrefix + tail;
  }
}
