/** The jobs store: the list of subscribed job repositories, its
    persistence, and the fetching of each repository's job index. */
module JobsStore {
  import opened Strings
  import opened JsValues
  import JobIndexParser
  import JobUrlHandler

  newtype byte = x: int | 0 <= x < 256

  /** One subscribed job: its address and the parsed job index. */
  datatype JobData = JobData(url: string, data: map<string, Json>)

  /** What a store operation that may throw ends with. */
  datatype Outcome = Done | Threw(message: string)

  /** A completed HTTP response, with its body read as bytes. */
  datatype Response = Response(ok: bool, status: int, statusText: string, body: seq<byte>)

  /** The browser facilities `fetchJobIndex` calls. `Err` results carry the
      message of what the facility throws or rejects with. The source reads
      a response's body only after its `ok` check, so `fetch` gives `Err`
      only when the request itself rejects, or when reading the body of an
      ok response does. A non-ok response is always `Ok` with `ok` false,
      whatever its body; its `body` is then never used. */
  datatype Web = Web(
    fetch: string -> Result<Response>,                // `fetch(url)` and reading its body
    decodeUtf8: seq<byte> -> string,                  // `new TextDecoder('utf-8').decode`
    parseJson: string -> Result<Json>,                // `JSON.parse`
    parseUrl: string -> JobUrlHandler.ParsedUrl,      // `new URL(url)` on a `https://github.com/` address
    encodeComponent: string -> string,                // `encodeURIComponent`
    atob: Json -> Result<string>,                     // `atob(value)`
    nullReadMessage: string)                          // the TypeError for reading a property of null

  const FetchPrefix := "Failed to fetch job index: "
  const GithubPrefix := "https://github.com/"
  const ApiOrigin := "https://api.github.com"
  const InvalidRepoUrl := "Invalid GitHub repository URL"
  const IndexNotFound := "index.json not found in the repository root"
  const SaveFailed := "Failed to save jobs to localStorage"

  // ---------------------------------------------------------------------
  // The job list

  /** The addresses of the jobs, in order. */
  function Urls(jobs: seq<JobData>): (urls: seq<string>)
    ensures |urls| == |jobs|
    ensures forall i :: 0 <= i < |jobs| ==> urls[i] == jobs[i].url
  {
    seq(|jobs|, i requires 0 <= i < |jobs| => jobs[i].url)
  }

  /** No address occurs twice. */
  predicate UniqueUrls(jobs: seq<JobData>)
  {
    forall i, j :: 0 <= i < j < |jobs| ==> jobs[i].url != jobs[j].url
  }

  /** `jobs.findIndex(item => item.url === url)`, searching from `from`. */
  function FindFrom(jobs: seq<JobData>, url: string, from: nat): (i: int)
    requires from <= |jobs|
    ensures i == -1 || from <= i < |jobs|
    ensures 0 <= i ==> jobs[i].url == url
    ensures forall k :: from <= k < |jobs| && (i == -1 || k < i) ==> jobs[k].url != url
    decreases |jobs| - from
  {
    if from == |jobs| then -1
    else if jobs[from].url == url then from
    else FindFrom(jobs, url, from + 1)
  }

  /** `jobs.findIndex(item => item.url === url)`: the first index holding
      `url`, or -1. */
  function FindIndex(jobs: seq<JobData>, url: string): (i: int)
    ensures -1 <= i < |jobs|
    ensures i == -1 <==> url !in Urls(jobs)
    ensures 0 <= i ==> jobs[i].url == url && forall k :: 0 <= k < i ==> jobs[k].url != url
  {
    FindFrom(jobs, url, 0)
  }

  /** The list `addJob(job)` leaves: the first entry with the same address
      replaced in place, or `job` appended. */
  function Added(jobs: seq<JobData>, job: JobData): (r: seq<JobData>)
    ensures |r| == (if job.url in Urls(jobs) then |jobs| else |jobs| + 1)
    ensures job in r
    ensures forall e :: e in r ==> e in jobs || e == job
    ensures Urls(r) == (if job.url in Urls(jobs) then Urls(jobs) else Urls(jobs) + [job.url])
  {
    var existingIndex := FindIndex(jobs, job.url);
    if existingIndex != -1 then
      var replaced := jobs[existingIndex := job];
      assert replaced[existingIndex] == job;
      replaced
    else jobs + [job]
  }

  /** The list `removeJob(url)` leaves: every entry with another address, in
      order. */
  function Removed(jobs: seq<JobData>, url: string): (r: seq<JobData>)
    ensures url !in Urls(r)
    ensures |r| <= |jobs|
    ensures forall e :: e in r ==> e in jobs
  {
    if |jobs| == 0 then []
    else if jobs[0].url == url then Removed(jobs[1..], url)
    else [jobs[0]] + Removed(jobs[1..], url)
  }

  /** Adding a job whose address is listed overwrites that slot: the length
      and every other entry stay. */
  lemma AddReplaces(jobs: seq<JobData>, job: JobData)
    requires job.url in Urls(jobs)
    ensures |Added(jobs, job)| == |jobs|
    ensures Added(jobs, job)[FindIndex(jobs, job.url)] == job
    ensures forall k :: 0 <= k < |jobs| && k != FindIndex(jobs, job.url) ==> Added(jobs, job)[k] == jobs[k]
  {
  }

  /** Adding a job with a new address appends it as the last entry. */
  lemma AddAppends(jobs: seq<JobData>, job: JobData)
    requires job.url !in Urls(jobs)
    ensures Added(jobs, job) == jobs + [job]
    ensures |Added(jobs, job)| == |jobs| + 1
  {
  }

  /** After adding, the address is listed and its first entry is `job`. */
  lemma AddedFinds(jobs: seq<JobData>, job: JobData)
    ensures job.url in Urls(Added(jobs, job))
    ensures Added(jobs, job)[FindIndex(Added(jobs, job), job.url)] == job
  {
    var a := Added(jobs, job);
    var i := FindIndex(jobs, job.url);
    if i == -1 {
      assert a[|jobs|] == job;
      assert Urls(a)[|jobs|] == job.url;
      assert FindIndex(a, job.url) == |jobs|;
    } else {
      assert a[i] == job;
      assert Urls(a)[i] == job.url;
      assert forall k :: 0 <= k < i ==> a[k] == jobs[k];
      assert FindIndex(a, job.url) == i;
    }
  }

  /** Adding the same job twice is adding it once. */
  lemma AddIdempotent(jobs: seq<JobData>, job: JobData)
    ensures Added(Added(jobs, job), job) == Added(jobs, job)
  {
    AddedFinds(jobs, job);
  }

  /** Adding keeps addresses unique. */
  lemma AddKeepsUnique(jobs: seq<JobData>, job: JobData)
    requires UniqueUrls(jobs)
    ensures UniqueUrls(Added(jobs, job))
  {
    var i := FindIndex(jobs, job.url);
    if i == -1 {
      var a := jobs + [job];
      forall x, y | 0 <= x < y < |a| ensures a[x].url != a[y].url {
        if y == |jobs| {
          assert Urls(jobs)[x] == jobs[x].url;
        }
      }
    }
  }

  /** Removing distributes over concatenation: entries are judged one by one
      and kept in their relative order. */
  lemma {:induction false} RemovedAppend(a: seq<JobData>, b: seq<JobData>, url: string)
    ensures Removed(a + b, url) == Removed(a, url) + Removed(b, url)
  {
    if |a| > 0 {
      assert (a + b)[1..] == a[1..] + b;
      RemovedAppend(a[1..], b, url);
    } else {
      assert a + b == b;
    }
  }

  /** One entry is kept exactly when its address differs. */
  lemma RemovedSingle(e: JobData, url: string)
    ensures Removed([e], url) == if e.url == url then [] else [e]
  {
  }

  /** Removing an address that is not listed changes nothing. */
  lemma {:induction false} RemoveAbsent(jobs: seq<JobData>, url: string)
    requires url !in Urls(jobs)
    ensures Removed(jobs, url) == jobs
  {
    if |jobs| > 0 {
      assert Urls(jobs)[0] == jobs[0].url;
      assert Urls(jobs[1..]) == Urls(jobs)[1..];
      RemoveAbsent(jobs[1..], url);
      assert jobs == [jobs[0]] + jobs[1..];
    }
  }

  /** Removing twice is removing once. */
  lemma RemoveIdempotent(jobs: seq<JobData>, url: string)
    ensures Removed(Removed(jobs, url), url) == Removed(jobs, url)
  {
    RemoveAbsent(Removed(jobs, url), url);
  }

  /** Removing keeps addresses unique. */
  lemma {:induction false} RemoveKeepsUnique(jobs: seq<JobData>, url: string)
    requires UniqueUrls(jobs)
    ensures UniqueUrls(Removed(jobs, url))
  {
    if |jobs| > 0 {
      RemoveKeepsUnique(jobs[1..], url);
      if jobs[0].url != url {
        var r := Removed(jobs[1..], url);
        forall e | e in r ensures e.url != jobs[0].url {
          assert e in jobs[1..];
        }
        var a := [jobs[0]] + r;
        forall x, y | 0 <= x < y < |a| ensures a[x].url != a[y].url {
          if x == 0 {
            assert a[y] == r[y - 1] && a[y] in r;
          } else {
            assert a[x] == r[x - 1] && a[y] == r[y - 1];
          }
        }
      }
    }
  }

  /** Removing an address undoes adding a job with it. */
  lemma RemoveAfterAdd(jobs: seq<JobData>, job: JobData)
    ensures Removed(Added(jobs, job), job.url) == Removed(jobs, job.url)
  {
    var i := FindIndex(jobs, job.url);
    if i == -1 {
      RemovedAppend(jobs, [job], job.url);
      RemovedSingle(job, job.url);
    } else {
      assert jobs == jobs[..i] + [jobs[i]] + jobs[i + 1..];
      assert jobs[i := job] == jobs[..i] + [job] + jobs[i + 1..];
      RemovedSwap(jobs[..i], jobs[i], job, jobs[i + 1..], job.url);
    }
  }

  /** Swapping one entry for another with the removed address does not
      change what removing leaves. */
  lemma RemovedSwap(a: seq<JobData>, x: JobData, y: JobData, b: seq<JobData>, url: string)
    requires x.url == url && y.url == url
    ensures Removed(a + [x] + b, url) == Removed(a + [y] + b, url)
  {
    RemovedAppend(a + [x], b, url);
    RemovedAppend(a, [x], url);
    RemovedAppend(a + [y], b, url);
    RemovedAppend(a, [y], url);
    RemovedSingle(x, url);
    RemovedSingle(y, url);
  }

  // ---------------------------------------------------------------------
  // Persistence

  /** The list `loadJobsFromStorage()` leaves, given whether `layui` is
      present, whether reading or parsing throws, what is stored, and the
      list before. */
  function LoadedList(layui: bool, readFails: bool, stored: Option<seq<JobData>>, current: seq<JobData>)
    : (r: seq<JobData>)
    ensures readFails ==> r == []
    ensures !readFails && stored.Some? ==> r == stored.value
    ensures !readFails && stored.None? ==> r == (if layui then [] else current)
  {
    if readFails then []
    else if layui then (if stored.Some? then stored.value else [])
    else if stored.Some? then stored.value else current
  }

  /** Where the list is kept between sessions: `layui.data('jobs')` when
      layui is present, `localStorage` otherwise. */
  class Storage {
    const layui: bool
    const readFails: bool
    const writeFails: bool
    var stored: Option<seq<JobData>>

    constructor (layui: bool, readFails: bool, writeFails: bool, stored: Option<seq<JobData>>)
      ensures this.layui == layui && this.readFails == readFails && this.writeFails == writeFails
      ensures this.stored == stored
    {
      this.layui := layui;
      this.readFails := readFails;
      this.writeFails := writeFails;
      this.stored := stored;
    }
  }

  // ---------------------------------------------------------------------
  // Fetching a job index

  /** `Failed to fetch ${url}: ${status} ${statusText}`. */
  function FetchFailed(url: string, response: Response): string
  {
    "Failed to fetch " + url + ": " + IntToString(response.status) + " " + response.statusText
  }

  /** The first 100 characters of the body, with `...` when there is more. */
  function Preview(text: string): (p: string)
    ensures |text| <= 100 ==> p == text
    ensures |text| > 100 ==> |p| == 103 && p[..100] == text[..100] && p[100..] == "..."
  {
    if |text| > 100 then text[..100] + "..." else text
  }

  /** The message the direct branch throws for a body it cannot use. */
  function NotValidJson(response: Response, preview: string, message: string): string
  {
    "Returned content is not valid JSON. Server returned: " + IntToString(response.status) + " "
    + response.statusText + ". Content preview: \"" + preview + "\". Parse error: " + message
  }

  /** The path of the contents-API address of a repository's `index.json`. */
  function IndexApiPath(user: string, repo: string): string
  {
    "/repos/" + user + "/" + repo + "/contents/index.json"
  }

  /** The contents-API address of `index.json`, with `?ref=` only when a
      non-empty branch is given. */
  function ApiUrl(user: string, repo: string, branch: Option<string>, encode: string -> string): (url: string)
    ensures StartsWith(url, ApiOrigin + IndexApiPath(user, repo))
    ensures var rest := url[|ApiOrigin + IndexApiPath(user, repo)|..];
      if branch.Some? && branch.value != "" then rest == "?ref=" + encode(branch.value) else rest == ""
  {
    ApiOrigin + IndexApiPath(user, repo)
    + (if branch.Some? && branch.value != "" then "?ref=" + encode(branch.value) else "")
  }

  /** The low bytes of the characters, as a `Uint8Array` stores
      `charCodeAt(i)`. */
  function CharCodes(content: string): (bytes: seq<byte>)
    ensures |bytes| == |content|
  {
    seq(|content|, i requires 0 <= i < |content| => (content[i] as int % 256) as byte)
  }

  /** Validation followed by parsing, as both branches do it: the bare
      joined errors are thrown when validation fails. */
  function IndexFromJson(data: Json): (r: Result<map<string, Json>>)
    ensures r.Ok? <==> JobIndexParser.IsValidJobIndex(data)
    ensures r.Err? ==> r.message == Join(JobIndexParser.JobIndexErrors(data), ", ")
    ensures r.Ok? ==> r == JobIndexParser.JobIndexParse(data)
  {
    JobIndexParser.RevalidationAgrees(data);
    var errors := JobIndexParser.JobIndexErrors(data);
    if errors != [] then Err(Join(errors, ", "))
    else JobIndexParser.JobIndexParse(JobIndexParser.WithNameFallback(data))
  }

  /** The document the direct branch reaches: the fetched address answered
      with an ok status and a body that parses as JSON. */
  function DirectDocument(web: Web, repoUrl: string): (doc: Option<Json>)
    ensures doc.Some? ==> web.fetch(repoUrl).Ok? && web.fetch(repoUrl).value.ok
  {
    if web.fetch(repoUrl).Err? || !web.fetch(repoUrl).value.ok then None
    else match web.parseJson(web.decodeUtf8(web.fetch(repoUrl).value.body))
      case Ok(data) => Some(data)
      case Err(_) => None
  }

  /** The document the GitHub branch reaches: the repository is named, the
      contents API answers ok with a non-null JSON object, and its base64
      `content` decodes to JSON. */
  function GithubDocument(web: Web, repoUrl: string): (doc: Option<Json>)
    ensures doc.Some? ==> |JobUrlHandler.PathParts(web.parseUrl(repoUrl).pathname)| >= 2
  {
    var urlObj := web.parseUrl(repoUrl);
    var pathParts := JobUrlHandler.PathParts(urlObj.pathname);
    if |pathParts| < 2 then None
    else
      var response := web.fetch(ApiUrl(pathParts[0], pathParts[1], urlObj.refParam, web.encodeComponent));
      if response.Err? || !response.value.ok then None
      else match web.parseJson(web.decodeUtf8(response.value.body))
        case Err(_) => None
        case Ok(responseData) =>
          if responseData.Null? then None
          else match web.atob(Get(responseData, "content"))
            case Err(_) => None
            case Ok(content) =>
              match web.parseJson(web.decodeUtf8(CharCodes(content)))
              case Err(_) => None
              case Ok(data) => Some(data)
  }

  /** The job-index document `fetchJobIndex` reaches on the branch its
      address selects, if any. */
  function FetchedDocument(web: Web, repoUrl: string): Option<Json>
  {
    if StartsWith(repoUrl, GithubPrefix) then GithubDocument(web, repoUrl) else DirectDocument(web, repoUrl)
  }

  /** The branch for any address not under `https://github.com/`: the
      address is fetched as the JSON file itself. */
  function DirectFetch(web: Web, repoUrl: string): (r: Result<map<string, Json>>)
    ensures r.Ok? <==> DirectDocument(web, repoUrl).Some? && JobIndexParser.IsValidJobIndex(DirectDocument(web, repoUrl).value)
    ensures r.Ok? ==> r == JobIndexParser.JobIndexParse(DirectDocument(web, repoUrl).value)
  {
    match web.fetch(repoUrl)
    case Err(message) => Err(message)
    case Ok(response) =>
      if !response.ok then Err(FetchFailed(repoUrl, response))
      else
        var text := web.decodeUtf8(response.body);
        var inner := match web.parseJson(text)
          case Err(message) => Err(message)
          case Ok(data) => IndexFromJson(data);
        if inner.Err? then Err(NotValidJson(response, Preview(text), inner.message)) else inner
  }

  /** The GitHub branch: the repository's `index.json` read through the
      contents API, whose content is base64. */
  function GithubFetch(web: Web, repoUrl: string): (r: Result<map<string, Json>>)
    ensures r.Ok? <==> GithubDocument(web, repoUrl).Some? && JobIndexParser.IsValidJobIndex(GithubDocument(web, repoUrl).value)
    ensures r.Ok? ==> r == JobIndexParser.JobIndexParse(GithubDocument(web, repoUrl).value)
    ensures GithubDocument(web, repoUrl).Some? && !JobIndexParser.IsValidJobIndex(GithubDocument(web, repoUrl).value) ==>
      r == Err(Join(JobIndexParser.JobIndexErrors(GithubDocument(web, repoUrl).value), ", "))
  {
    var urlObj := web.parseUrl(repoUrl);
    var pathParts := JobUrlHandler.PathParts(urlObj.pathname);
    if |pathParts| < 2 then Err(InvalidRepoUrl)
    else
      var apiUrl := ApiUrl(pathParts[0], pathParts[1], urlObj.refParam, web.encodeComponent);
      match web.fetch(apiUrl)
      case Err(message) => Err(message)
      case Ok(response) =>
        if !response.ok then
          (if response.status == 404 then Err(IndexNotFound) else Err(FetchFailed(apiUrl, response)))
        else match web.parseJson(web.decodeUtf8(response.body))
          case Err(message) => Err(message)
          case Ok(responseData) =>
            if responseData.Null? then Err(web.nullReadMessage)
            else match web.atob(Get(responseData, "content"))
              case Err(message) => Err(message)
              case Ok(content) =>
                match web.parseJson(web.decodeUtf8(CharCodes(content)))
                case Err(message) => Err(message)
                case Ok(data) => IndexFromJson(data)
  }

  /** What `fetchJobIndex(repoUrl)` resolves to or rejects with. */
  function FetchJobIndexResult(web: Web, repoUrl: string): (r: Result<map<string, Json>>)
    ensures r.Err? ==> StartsWith(r.message, FetchPrefix)
    ensures r.Ok? ==> "name" in r.value && NonEmptyStr(r.value["name"]) && "version" in r.value
    ensures r.Ok? <==> FetchedDocument(web, repoUrl).Some? && JobIndexParser.IsValidJobIndex(FetchedDocument(web, repoUrl).value)
    ensures r.Ok? ==> r == JobIndexParser.JobIndexParse(FetchedDocument(web, repoUrl).value)
  {
    var inner := if StartsWith(repoUrl, GithubPrefix) then GithubFetch(web, repoUrl) else DirectFetch(web, repoUrl);
    if inner.Err? then Err(FetchPrefix + inner.message) else inner
  }

  /** A GitHub address with fewer than two path segments names no
      repository. */
  lemma ShortGithubAddress(web: Web, repoUrl: string)
    requires StartsWith(repoUrl, GithubPrefix)
    requires |JobUrlHandler.PathParts(web.parseUrl(repoUrl).pathname)| < 2
    ensures FetchJobIndexResult(web, repoUrl) == Err(FetchPrefix + InvalidRepoUrl)
  {
  }

  /** A 404 from the contents API means the repository has no `index.json`
      at its root; any other failed status names the API address. */
  lemma GithubStatusErrors(web: Web, repoUrl: string, user: string, repo: string)
    requires StartsWith(repoUrl, GithubPrefix)
    requires |JobUrlHandler.PathParts(web.parseUrl(repoUrl).pathname)| >= 2
    requires JobUrlHandler.PathParts(web.parseUrl(repoUrl).pathname)[0] == user
    requires JobUrlHandler.PathParts(web.parseUrl(repoUrl).pathname)[1] == repo
    requires web.fetch(ApiUrl(user, repo, web.parseUrl(repoUrl).refParam, web.encodeComponent)).Ok?
    requires !web.fetch(ApiUrl(user, repo, web.parseUrl(repoUrl).refParam, web.encodeComponent)).value.ok
    ensures var response := web.fetch(ApiUrl(user, repo, web.parseUrl(repoUrl).refParam, web.encodeComponent)).value;
      FetchJobIndexResult(web, repoUrl) == Err(FetchPrefix +
        if response.status == 404 then IndexNotFound
        else FetchFailed(ApiUrl(user, repo, web.parseUrl(repoUrl).refParam, web.encodeComponent), response))
  {
  }

  /** On the direct branch, a body that is not JSON, or not a valid job
      index, is reported with the status, a preview of the body and the
      underlying message. */
  lemma DirectBodyErrors(web: Web, repoUrl: string)
    requires !StartsWith(repoUrl, GithubPrefix)
    requires web.fetch(repoUrl).Ok? && web.fetch(repoUrl).value.ok
    ensures var response := web.fetch(repoUrl).value;
      var text := web.decodeUtf8(response.body);
      (web.parseJson(text).Err? ==>
        FetchJobIndexResult(web, repoUrl)
          == Err(FetchPrefix + NotValidJson(response, Preview(text), web.parseJson(text).message)))
      && (web.parseJson(text).Ok? && !JobIndexParser.IsValidJobIndex(web.parseJson(text).value) ==>
        FetchJobIndexResult(web, repoUrl)
          == Err(FetchPrefix + NotValidJson(response, Preview(text),
                   Join(JobIndexParser.JobIndexErrors(web.parseJson(text).value), ", "))))
  {
  }

  /** The contents-API address `fetchJobIndex` builds is one that
      `convertGithubApiUrlToRawUrl` turns into the raw address of the same
      `index.json`, on the same branch or on `main`. */
  lemma ApiUrlConvertsToRaw(user: string, repo: string, branch: Option<string>)
    requires user != "" && repo != "" && '/' !in user && '/' !in repo
    ensures JobUrlHandler.ConvertGithubApiUrlToRawUrl(
        Some(JobUrlHandler.ParsedUrl(JobUrlHandler.ApiHost, IndexApiPath(user, repo), branch)))
      == Some(JobUrlHandler.RawPrefix + user + "/" + repo + "/" + JobUrlHandler.RefOrMain(branch) + "/index.json")
  {
    var file := ["index.json"];
    IndexApiPathIsApiPath(user, repo, file);
    JobUrlHandler.ConvertsApiPath(user, repo, "contents", file, branch);
    IndexFileTail(JobUrlHandler.RawPrefix + user + "/" + repo + "/" + JobUrlHandler.RefOrMain(branch), file);
  }

  /** The joined file part of `index.json` ends the raw address. */
  lemma IndexFileTail(head: string, file: seq<string>)
    requires file == ["index.json"]
    ensures head + "/" + Join(file, "/") == head + "/index.json"
  {
    assert Join(file, "/") == "index.json";
    assert "/" + "index.json" == "/index.json";
  }

  /** The path `fetchJobIndex` builds is the contents-API path of the
      single file `index.json`. */
  lemma IndexApiPathIsApiPath(user: string, repo: string, file: seq<string>)
    requires file == ["index.json"]
    ensures JobUrlHandler.ApiPath(user, repo, "contents", file) == IndexApiPath(user, repo)
  {
    OneFileApiPath(user, repo, "contents", file[0]);
    assert [file[0]] == file;
    var head := "/repos/" + user + "/" + repo;
    assert "/" + "contents" + "/" + "index.json" == "/contents/index.json";
    assert head + "/" + "contents" + "/" + "index.json" == head + "/contents/index.json";
  }

  /** The contents-API path of one file, written out. */
  lemma OneFileApiPath(owner: string, repo: string, kind: string, name: string)
    ensures JobUrlHandler.ApiPath(owner, repo, kind, [name])
      == "/repos/" + owner + "/" + repo + "/" + kind + "/" + name
  {
    var p := ["repos", owner, repo, kind] + [name];
    assert p == ["repos"] + ([owner] + ([repo] + ([kind] + [name])));
    JoinCons(kind, [name], "/");
    JoinCons(repo, [kind] + [name], "/");
    JoinCons(owner, [repo] + ([kind] + [name]), "/");
    JoinCons("repos", [owner] + ([repo] + ([kind] + [name])), "/");
  }

  /** The bytes of a string whose characters are all below 256 (as `atob`
      produces) are its character codes, unchanged. */
  lemma CharCodesOfLatin1(content: string)
    requires forall i :: 0 <= i < |content| ==> content[i] as int < 256
    ensures forall i :: 0 <= i < |content| ==> CharCodes(content)[i] as int == content[i] as int
  {
  }

  /** The loop that fills a `Uint8Array` with `content.charCodeAt(i)`. */
  method EncodeBytes(content: string) returns (encodedBytes: array<byte>)
    ensures fresh(encodedBytes)
    ensures encodedBytes[..] == CharCodes(content)
  {
    encodedBytes := new byte[|content|];
    var i := 0;
    while i < |content|
      invariant 0 <= i <= |content|
      invariant forall k :: 0 <= k < i ==> encodedBytes[k] == CharCodes(content)[k]
    {
      encodedBytes[i] := (content[i] as int % 256) as byte;
      i := i + 1;
    }
  }

  /** `validateJobIndex(data)` then `parseJobIndex(data)` on a freshly
      parsed object, which the validator may write a `name` into. */
  method ValidateAndParse(data: Json) returns (r: Result<map<string, Json>>)
    ensures r == IndexFromJson(data)
  {
    var handle := new Handle(data);
    var validation := JobIndexParser.ValidateJobIndex(handle);
    if !validation.isValid {
      return Err(Join(validation.errors, ", "));
    }
    JobIndexParser.RevalidationAgrees(data);
    r := JobIndexParser.ParseJobIndex(handle);
  }

  /** `fetchJobIndex(repoUrl)`. */
  method FetchJobIndex(web: Web, repoUrl: string) returns (r: Result<map<string, Json>>)
    ensures r == FetchJobIndexResult(web, repoUrl)
  {
    var inner: Result<map<string, Json>>;
    if !StartsWith(repoUrl, GithubPrefix) {
      inner := FetchDirect(web, repoUrl);
    } else {
      inner := FetchFromGithub(web, repoUrl);
    }
    if inner.Err? {
      return Err(FetchPrefix + inner.message);
    }
    return inner;
  }

  /** The body of the direct branch, before the outer prefix is added. */
  method FetchDirect(web: Web, repoUrl: string) returns (r: Result<map<string, Json>>)
    ensures r == DirectFetch(web, repoUrl)
  {
    var fetched := web.fetch(repoUrl);
    if fetched.Err? {
      return Err(fetched.message);
    }
    var response := fetched.value;
    if !response.ok {
      return Err(FetchFailed(repoUrl, response));
    }
    var text := web.decodeUtf8(response.body);
    var parsed := web.parseJson(text);
    var inner: Result<map<string, Json>>;
    if parsed.Err? {
      inner := Err(parsed.message);
    } else {
      inner := ValidateAndParse(parsed.value);
    }
    if inner.Err? {
      return Err(NotValidJson(response, Preview(text), inner.message));
    }
    return inner;
  }

  /** The body of the GitHub branch, before the outer prefix is added. */
  method FetchFromGithub(web: Web, repoUrl: string) returns (r: Result<map<string, Json>>)
    ensures r == GithubFetch(web, repoUrl)
  {
    var urlObj := web.parseUrl(repoUrl);
    var pathParts := JobUrlHandler.PathParts(urlObj.pathname);
    if |pathParts| < 2 {
      return Err(InvalidRepoUrl);
    }
    var apiUrl := ApiUrl(pathParts[0], pathParts[1], urlObj.refParam, web.encodeComponent);
    var fetched := web.fetch(apiUrl);
    if fetched.Err? {
      return Err(fetched.message);
    }
    var response := fetched.value;
    if !response.ok {
      if response.status == 404 {
        return Err(IndexNotFound);
      }
      return Err(FetchFailed(apiUrl, response));
    }
    var json := web.parseJson(web.decodeUtf8(response.body));
    if json.Err? {
      return Err(json.message);
    }
    var responseData := json.value;
    if responseData.Null? {
      return Err(web.nullReadMessage);
    }
    var decoded := web.atob(Get(responseData, "content"));
    if decoded.Err? {
      return Err(decoded.message);
    }
    var encodedBytes := EncodeBytes(decoded.value);
    var text := web.decodeUtf8(encodedBytes[..]);
    var parsed := web.parseJson(text);
    if parsed.Err? {
      return Err(parsed.message);
    }
    r := ValidateAndParse(parsed.value);
  }

  // ---------------------------------------------------------------------
  // Refreshing every job

  /** One entry after `loadJobs`, given what fetching its index gave: the
      fetched index, or the entry as it was when the fetch fails. */
  function RefreshEntry(job: JobData, data: Result<map<string, Json>>): (r: JobData)
    ensures r.url == job.url
    ensures data.Err? ==> r == job
    ensures data.Ok? ==> r.data == data.value
  {
    if data.Ok? then JobData(job.url, data.value) else job
  }

  /** The list after `loadJobs`, entry by entry in the same order. */
  function Refreshed(web: Web, jobs: seq<JobData>): (r: seq<JobData>)
    ensures |r| == |jobs|
    ensures forall i :: 0 <= i < |jobs| ==> r[i].url == jobs[i].url
    ensures forall i :: 0 <= i < |jobs| ==> r[i] == RefreshEntry(jobs[i], FetchJobIndexResult(web, jobs[i].url))
  {
    if |jobs| == 0 then []
    else
      var last := jobs[|jobs| - 1];
      Refreshed(web, jobs[..|jobs| - 1]) + [RefreshEntry(last, FetchJobIndexResult(web, last.url))]
  }

  /** `Promise.all(jobs.map(...))` in `loadJobs`, taken in entry order:
      each entry is fetched again, and a failed fetch keeps the entry. */
  method RefreshAll(web: Web, list: seq<JobData>) returns (jobsWithDetails: seq<JobData>)
    ensures jobsWithDetails == Refreshed(web, list)
  {
    jobsWithDetails := [];
    var i := 0;
    while i < |list|
      invariant 0 <= i <= |list|
      invariant jobsWithDetails == Refreshed(web, list[..i])
    {
      var job := list[i];
      var data := FetchJobIndex(web, job.url);
      var entry := if data.Ok? then JobData(job.url, data.value) else job;
      assert list[..i + 1][..i] == list[..i] && list[..i + 1][i] == job;
      jobsWithDetails := jobsWithDetails + [entry];
      i := i + 1;
    }
    assert list[..i] == list;
  }

  /** Refreshing keeps addresses unique. */
  lemma RefreshKeepsUnique(web: Web, jobs: seq<JobData>)
    requires UniqueUrls(jobs)
    ensures UniqueUrls(Refreshed(web, jobs))
  {
  }

  // ---------------------------------------------------------------------
  // The store

  class Store {
    var jobs: seq<JobData>
    var loading: bool
    var error: string
    const storage: Storage

    constructor (storage: Storage)
      ensures jobs == [] && !loading && error == "" && this.storage == storage
    {
      jobs := [];
      loading := false;
      error := "";
      this.storage := storage;
    }

    /** `saveJobsToStorage()`. */
    method SaveJobsToStorage() returns (r: Outcome)
      modifies storage
      ensures r == (if storage.writeFails then Threw(SaveFailed) else Done)
      ensures storage.stored == (if storage.writeFails then old(storage.stored) else Some(jobs))
    {
      if storage.writeFails {
        return Threw(SaveFailed);
      }
      storage.stored := Some(jobs);
      return Done;
    }

    /** `loadJobsFromStorage()`. */
    method LoadJobsFromStorage()
      modifies this
      ensures jobs == LoadedList(storage.layui, storage.readFails, storage.stored, old(jobs))
      ensures loading == old(loading) && error == old(error)
    {
      if storage.readFails {
        jobs := [];
      } else if storage.layui {
        jobs := if storage.stored.Some? then storage.stored.value else [];
      } else if storage.stored.Some? {
        jobs := storage.stored.value;
      }
    }

    /** `addJob(job)`: the list is changed before saving, so a failed save
        throws with the change already made. */
    method AddJob(job: JobData) returns (r: Outcome)
      modifies this, storage
      ensures jobs == Added(old(jobs), job)
      ensures r == (if storage.writeFails then Threw(SaveFailed) else Done)
      ensures storage.stored == (if storage.writeFails then old(storage.stored) else Some(jobs))
      ensures loading == old(loading) && error == old(error)
    {
      var existingIndex := FindIndex(jobs, job.url);
      if existingIndex != -1 {
        jobs := jobs[existingIndex := job];
      } else {
        jobs := jobs + [job];
      }
      r := SaveJobsToStorage();
    }

    /** `removeJob(url)`: as for `addJob`, the change is kept when saving fails. */
    method RemoveJob(url: string) returns (r: Outcome)
      modifies this, storage
      ensures jobs == Removed(old(jobs), url)
      ensures r == (if storage.writeFails then Threw(SaveFailed) else Done)
      ensures storage.stored == (if storage.writeFails then old(storage.stored) else Some(jobs))
      ensures loading == old(loading) && error == old(error)
    {
      jobs := Removed(jobs, url);
      r := SaveJobsToStorage();
    }

    /** `loadJobs()`: reload the list, then replace each entry by its freshly
        fetched index, keeping the old entry when the fetch fails. */
    method LoadJobs(web: Web)
      modifies this
      ensures jobs == Refreshed(web, LoadedList(storage.layui, storage.readFails, storage.stored, old(jobs)))
      ensures !loading && error == ""
    {
      loading := true;
      error := "";
      LoadJobsFromStorage();
      var jobsWithDetails := RefreshAll(web, jobs);
      jobs := jobsWithDetails;
      loading := false;
    }
  }

  /** Saving the list and loading it again, with storage that neither fails
      to write nor to read, leaves the list as it was and stored. */
  method SaveThenLoad(store: Store)
    requires !store.storage.writeFails && !store.storage.readFails
    modifies store, store.storage
    ensures store.jobs == old(store.jobs)
    ensures store.storage.stored == Some(old(store.jobs))
  {
    var outcome := store.SaveJobsToStorage();
    store.LoadJobsFromStorage();
  }
}
