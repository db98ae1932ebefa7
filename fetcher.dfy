/** `fetch_markdown` of the first fetcher: a URL is fetched as it is, a gist id through the gist
    API, anything else is read as a local file. From a gist the first file whose `filename` ends
    with `.md` is fetched; errors are not translated. */
module Fetcher {
  import opened Wrappers
  import opened Text
  import opened Sources
  import FixedFetcher

  /** A file the scan passes over: it has a `filename`, and the name does not end with `.md`.
      The scan stops at the first other file, with a `KeyError` when the field is missing. */
  predicate PassedOver(f: GistFile)
  {
    f.filename.Some? && !EndsWith(f.filename.value, ".md")
  }

  predicate StopsScan(f: GistFile)
  {
    !PassedOver(f)
  }

  /** `requests.get(url)` followed by `raise_for_status()` and `.text`. */
  function UrlContent(url: string, net: Network): (r: Result<string, FetchError>)
    ensures r.Err? ==> r.error == RequestError(url)
  {
    match net.getText(url, map[])
    case None => Err(RequestError(url))
    case Some(content) => Ok(content)
  }

  /** The file the scan returns, or the error it raises. */
  function Scan(files: seq<GistFile>): (r: Result<GistFile, FetchError>)
    ensures r.Ok? ==> r.value in files && r.value.filename.Some? && EndsWith(r.value.filename.value, ".md")
    ensures r.Err? ==> r.error == MissingKey("filename") || r.error == NoMarkdownFileFound
  {
    match FirstMatch(files, StopsScan)
    case None => Err(NoMarkdownFileFound)
    case Some(k) => if files[k].filename.None? then Err(MissingKey("filename")) else Ok(files[k])
  }

  /** `_fetch_from_gist`: the API answer, then the raw text of the scanned file. */
  function GistContent(gistId: string, token: Option<string>, net: Network): (r: Result<string, FetchError>)
    ensures r.Err? ==> !r.error.FetchGistFailed? && !r.error.InvalidGistFormat? && !r.error.NoMarkdownFile?
  {
    match net.getGist(ApiUrl(gistId), GistHeaders(token))
    case RequestFailed => Err(RequestError(ApiUrl(gistId)))
    case NoFilesKey => Err(MissingKey("files"))
    case Files(files) =>
      match Scan(files)
      case Err(e) => Err(e)
      case Ok(f) =>
        match f.rawUrl
        case None => Err(MissingKey("raw_url"))
        case Some(url) => UrlContent(url, net)
  }

  /** `fetch_markdown`. */
  function Fetch(src: string, token: Option<string>, net: Network): (r: Result<string, FetchError>)
    ensures Classify(src) == Url ==> r == UrlContent(src, net)
    ensures Classify(src) == LocalPath ==> r == (match net.readFile(src)
                                                 case None => Err(FileUnreadable(src))
                                                 case Some(content) => Ok(content))
  {
    match Classify(src)
    case Url => UrlContent(src, net)
    case GistId => GistContent(src, token, net)
    case LocalPath =>
      match net.readFile(src)
      case None => Err(FileUnreadable(src))
      case Some(content) => Ok(content)
  }

  /** `_fetch_from_gist` as written: the headers, the request, then a scan of the files that
      returns from inside the loop. */
  method FetchFromGist(gistId: string, token: Option<string>, net: Network) returns (r: Result<string, FetchError>)
    ensures r == GistContent(gistId, token, net)
  {
    var headers := BuildHeaders(token);
    var apiUrl := ApiUrl(gistId);
    var reply := net.getGist(apiUrl, headers);
    if reply.RequestFailed? {
      return Err(RequestError(apiUrl));
    }
    if reply.NoFilesKey? {
      return Err(MissingKey("files"));
    }
    var files := reply.files;
    for i := 0 to |files|
      invariant forall j :: 0 <= j < i ==> PassedOver(files[j])
    {
      if files[i].filename.None? {
        FirstMatchIs(files, StopsScan, i);
        return Err(MissingKey("filename"));
      }
      if EndsWith(files[i].filename.value, ".md") {
        FirstMatchIs(files, StopsScan, i);
        if files[i].rawUrl.None? {
          return Err(MissingKey("raw_url"));
        }
        r := FetchFromUrl(files[i].rawUrl.value, net);
        return;
      }
    }
    r := Err(NoMarkdownFileFound);
  }

  method FetchFromUrl(url: string, net: Network) returns (r: Result<string, FetchError>)
    ensures r == UrlContent(url, net)
  {
    var content := net.getText(url, map[]);
    if content.None? {
      return Err(RequestError(url));
    }
    r := Ok(content.value);
  }

  method FetchMarkdown(src: string, token: Option<string>, net: Network) returns (r: Result<string, FetchError>)
    ensures r == Fetch(src, token, net)
  {
    if StartsWith(src, "http://") || StartsWith(src, "https://") {
      r := FetchFromUrl(src, net);
    } else if IsGistId(src) {
      r := FetchFromGist(src, token, net);
    } else {
      var content := net.readFile(src);
      if content.None? {
        return Err(FileUnreadable(src));
      }
      r := Ok(content.value);
    }
  }

  // ---------------------------------------------------------------------------------------
  // Properties

  /** The first file named `*.md` is fetched, provided every file before it has a name. */
  lemma ScansToFirstMarkdown(files: seq<GistFile>, k: nat)
    requires k < |files| && files[k].filename.Some? && EndsWith(files[k].filename.value, ".md")
    requires forall j :: 0 <= j < k ==> PassedOver(files[j])
    ensures Scan(files) == Ok(files[k])
  {
    FirstMatchIs(files, StopsScan, k);
  }

  /** The scan fails with the plain message exactly when every file has a name and none ends
      with `.md`; the type field plays no part. */
  lemma ScanFindsNothing(files: seq<GistFile>)
    ensures Scan(files) == Err(NoMarkdownFileFound) <==> forall j :: 0 <= j < |files| ==> PassedOver(files[j])
  {
    var p := StopsScan;
    match FirstMatch(files, p)
    case None =>
      assert forall j :: 0 <= j < |files| ==> !p(files[j]);
    case Some(k) =>
      assert p(files[k]);
  }

  /** A source with an `http://` or `https://` prefix is fetched as a page with a plain GET. */
  lemma FetchesUrlAsPage(src: string, token: Option<string>, net: Network)
    requires StartsWith(src, "http://") || StartsWith(src, "https://")
    ensures Fetch(src, token, net) == (match net.getText(src, map[])
                                       case None => Err(RequestError(src))
                                       case Some(content) => Ok(content))
  {
  }

  /** A source that is a gist id but not a URL goes to the gist API with the optional token. */
  lemma FetchesGistId(src: string, token: Option<string>, net: Network)
    requires IsGistId(src)
    ensures Fetch(src, token, net) == GistContent(src, token, net)
  {
    GistIdIsNotUrl(src);
  }

  /** A source with neither prefix that is not a gist id is read from the file system. */
  lemma FetchesPathFromFile(src: string, token: Option<string>, net: Network)
    requires !StartsWith(src, "http://") && !StartsWith(src, "https://") && !IsGistId(src)
    ensures Fetch(src, token, net) == (match net.readFile(src)
                                       case None => Err(FileUnreadable(src))
                                       case Some(content) => Ok(content))
  {
  }

  /** A gist page URL is fetched as a page: the id it carries is not used. */
  lemma GistPageFetchedAsPage(user: string, id: string, tail: string, token: Option<string>, net: Network)
    requires user != [] && '/' !in user
    ensures var url := GistPagePrefix + user + "/" + id + tail;
            Fetch(url, token, net) == UrlContent(url, net)
  {
    var url := GistPagePrefix + user + "/" + id + tail;
    assert url == "https://" + (url[8..]);
    ConcatParts("https://", url[8..]);
  }

  /** On a listing whose names are the keys and where only `.md` files are typed
      `text/markdown`, both fetchers pick the same file whenever there is a `.md` file. */
  lemma SameChoiceOnPlainListings(files: seq<GistFile>, k: nat)
    requires forall j :: 0 <= j < |files| ==> files[j].filename == Some(files[j].key)
    requires forall j :: 0 <= j < |files| ==> files[j].fileType == Some("text/markdown") ==> EndsWith(files[j].key, ".md")
    requires k < |files| && EndsWith(files[k].key, ".md")
    ensures Scan(files).Ok? && Scan(files) == FixedFetcher.Selection(files)
  {
    var m := FirstMatch(files, FixedFetcher.IsMarkdownFile);
    assert m.Some? by {
      assert FixedFetcher.IsMarkdownFile(files[k]);
    }
    var first := m.value;
    assert forall j :: 0 <= j < first ==> PassedOver(files[j]) by {
      forall j | 0 <= j < first
        ensures PassedOver(files[j])
      {
        assert !FixedFetcher.IsMarkdownFile(files[j]);
      }
    }
    ScansToFirstMarkdown(files, first);
    FixedFetcher.SelectsFirstMarkdown(files, first);
  }

  /** The local-file example: a path such as the one of a temporary `sample.md` is read from
      the file system, and the text it holds is returned unchanged. */
  lemma FetchLocalSample(path: string, token: Option<string>, net: Network)
    requires path != [] && path[0] == '/'
    requires net.readFile(path) == Some("# Title")
    ensures Fetch(path, token, net) == Ok("# Title") && Contains("# Title", "Title")
  {
    PathsAreLocal(path);
    assert StartsWith("# Title"[2..], "Title");
    assert "# Title"[1..][1..] == "# Title"[2..];
  }
}
