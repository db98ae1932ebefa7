/** `fetch_markdown` of the corrected fetcher: a URL is fetched directly unless it is a gist page,
    whose id is then fetched through the gist API; a gist id is fetched through the API; anything
    else is read as a local file. From a gist the first Markdown file is taken, else the first
    text file, and every failure of a gist request is reported against the gist. */
module FixedFetcher {
  import opened Wrappers
  import opened Text
  import opened Sources

  // ---------------------------------------------------------------------------------------
  // Choosing the file of a gist

  /** A file the first loop collects: its name ends with `.md` or its type is `text/markdown`. */
  predicate IsMarkdownFile(f: GistFile)
  {
    EndsWith(f.key, ".md") || f.fileType == Some("text/markdown")
  }

  /** A file the second loop accepts: its type, `""` when missing, starts with `text/`. */
  predicate IsTextFile(f: GistFile)
  {
    StartsWith(f.fileType.GetOr(""), "text/")
  }

  /** The file the code fetches, or the error listing every available name. */
  function Selection(files: seq<GistFile>): (r: Result<GistFile, FetchError>)
    ensures r.Ok? ==> r.value in files
    ensures r.Err? ==> r.error == NoMarkdownFile(Names(files))
  {
    match FirstMatch(files, IsMarkdownFile)
    case Some(k) => Ok(files[k])
    case None =>
      match FirstMatch(files, IsTextFile)
      case Some(k) => Ok(files[k])
      case None => Err(NoMarkdownFile(Names(files)))
  }

  /** The two loops of `_fetch_from_gist` and the pick of `markdown_files[0]`: the first loop
      collects every Markdown file, the second, run only when there is none, stops at the first
      text file. */
  method SelectGistFile(files: seq<GistFile>) returns (r: Result<GistFile, FetchError>)
    ensures r == Selection(files)
  {
    var found: seq<GistFile> := [];
    ghost var first: nat := 0;
    for i := 0 to |files|
      invariant found == [] ==> forall j :: 0 <= j < i ==> !IsMarkdownFile(files[j])
      invariant found != [] ==> first < i && found[0] == files[first] && IsMarkdownFile(files[first])
                                && forall j :: 0 <= j < first ==> !IsMarkdownFile(files[j])
    {
      if EndsWith(files[i].key, ".md") || files[i].fileType == Some("text/markdown") {
        if found == [] {
          first := i;
        }
        found := found + [files[i]];
      }
    }
    if found != [] {
      FirstMatchIs(files, IsMarkdownFile, first);
      return Ok(found[0]);
    }
    var i := 0;
    while i < |files|
      invariant i <= |files| && found == []
      invariant forall j :: 0 <= j < i ==> !IsTextFile(files[j])
    {
      if StartsWith(files[i].fileType.GetOr(""), "text/") {
        found := found + [files[i]];
        break;
      }
      i := i + 1;
    }
    if found == [] {
      return Err(NoMarkdownFile(Names(files)));
    }
    FirstMatchIs(files, IsTextFile, i);
    r := Ok(found[0]);
  }

  // ---------------------------------------------------------------------------------------
  // Fetching

  /** `_fetch_from_gist`: the API answer, the chosen file, then its raw text. A request that
      fails, for the listing or for the raw text, becomes `FetchGistFailed`, a missing key
      `InvalidGistFormat`; the error of the selection passes through. */
  function GistContent(gistId: string, token: Option<string>, net: Network): (r: Result<string, FetchError>)
    ensures r.Err? ==> r.error == FetchGistFailed(gistId) || r.error.InvalidGistFormat? || r.error.NoMarkdownFile?
  {
    match net.getGist(ApiUrl(gistId), GistHeaders(token))
    case RequestFailed => Err(FetchGistFailed(gistId))
    case NoFilesKey => Err(InvalidGistFormat("files"))
    case Files(files) =>
      match Selection(files)
      case Err(e) => Err(e)
      case Ok(f) =>
        match f.rawUrl
        case None => Err(InvalidGistFormat("raw_url"))
        case Some(url) =>
          match net.getText(url, map[])
          case None => Err(FetchGistFailed(gistId))
          case Some(content) => Ok(content)
  }

  /** `_fetch_from_url`: a gist page goes to the gist API with the id it carries; any other URL
      is fetched as it is, and its failure propagates. */
  function UrlContent(url: string, token: Option<string>, net: Network): (r: Result<string, FetchError>)
    ensures FindGistUrlId(url).None? ==> r == (match net.getText(url, map[])
                                               case None => Err(RequestError(url))
                                               case Some(content) => Ok(content))
  {
    match FindGistUrlId(url)
    case Some(id) => GistContent(id, token, net)
    case None =>
      match net.getText(url, map[])
      case None => Err(RequestError(url))
      case Some(content) => Ok(content)
  }

  /** `fetch_markdown`. */
  function Fetch(src: string, token: Option<string>, net: Network): (r: Result<string, FetchError>)
    ensures Classify(src) == LocalPath ==> r == (match net.readFile(src)
                                                 case None => Err(FileUnreadable(src))
                                                 case Some(content) => Ok(content))
  {
    match Classify(src)
    case Url => UrlContent(src, token, net)
    case GistId => GistContent(src, token, net)
    case LocalPath =>
      match net.readFile(src)
      case None => Err(FileUnreadable(src))
      case Some(content) => Ok(content)
  }

  method FetchFromGist(gistId: string, token: Option<string>, net: Network) returns (r: Result<string, FetchError>)
    ensures r == GistContent(gistId, token, net)
  {
    var headers := BuildHeaders(token);
    var apiUrl := ApiUrl(gistId);
    var reply := net.getGist(apiUrl, headers);
    if reply.RequestFailed? {
      return Err(FetchGistFailed(gistId));
    }
    if reply.NoFilesKey? {
      return Err(InvalidGistFormat("files"));
    }
    var chosen := SelectGistFile(reply.files);
    if chosen.Err? {
      return Err(chosen.error);
    }
    var rawUrl := chosen.value.rawUrl;
    if rawUrl.None? {
      return Err(InvalidGistFormat("raw_url"));
    }
    var content := net.getText(rawUrl.value, map[]);
    if content.None? {
      return Err(FetchGistFailed(gistId));
    }
    r := Ok(content.value);
  }

  method FetchFromUrl(url: string, token: Option<string>, net: Network) returns (r: Result<string, FetchError>)
    ensures r == UrlContent(url, token, net)
  {
    var id := FindGistUrlId(url);
    if id.Some? {
      r := FetchFromGist(id.value, token, net);
      return;
    }
    var content := net.getText(url, map[]);
    if content.None? {
      return Err(RequestError(url));
    }
    r := Ok(content.value);
  }

  method FetchMarkdown(src: string, token: Option<string>, net: Network) returns (r: Result<string, FetchError>)
    ensures r == Fetch(src, token, net)
  {
    if StartsWith(src, "http://") || StartsWith(src, "https://") {
      r := FetchFromUrl(src, token, net);
    } else if IsGistId(src) {
      r := FetchFromGist(src, token, net);
    } else {
      var content := net.readFile(src);
      if content.None? {
        return Err(FileUnreadable(src));
      }
      r := Ok(content.value);
    }
  }

  // ---------------------------------------------------------------------------------------
  // Properties

  /** The first Markdown file in listing order is the one fetched, whatever text files come
      before it. */
  lemma SelectsFirstMarkdown(files: seq<GistFile>, k: nat)
    requires k < |files| && IsMarkdownFile(files[k])
    requires forall j :: 0 <= j < k ==> !IsMarkdownFile(files[j])
    ensures Selection(files) == Ok(files[k])
  {
    FirstMatchIs(files, IsMarkdownFile, k);
  }

  /** Without a Markdown file, the first text file is fetched. */
  lemma FallsBackToText(files: seq<GistFile>, k: nat)
    requires forall j :: 0 <= j < |files| ==> !IsMarkdownFile(files[j])
    requires k < |files| && IsTextFile(files[k])
    requires forall j :: 0 <= j < k ==> !IsTextFile(files[j])
    ensures Selection(files) == Ok(files[k])
  {
    FirstMatchIs(files, IsTextFile, k);
  }

  /** The selection fails exactly when no file is a Markdown or a text file. */
  lemma SelectionFails(files: seq<GistFile>)
    ensures Selection(files).Err? <==> forall j :: 0 <= j < |files| ==> !IsMarkdownFile(files[j]) && !IsTextFile(files[j])
  {
    if forall j :: 0 <= j < |files| ==> !IsMarkdownFile(files[j]) && !IsTextFile(files[j]) {
      assert FirstMatch(files, IsMarkdownFile).None?;
      assert FirstMatch(files, IsTextFile).None?;
    }
  }

  /** A URL that does not hold the gist page prefix anywhere is fetched as a page. */
  lemma UrlContentPlain(url: string, token: Option<string>, net: Network)
    requires !Contains(url, GistPagePrefix)
    ensures UrlContent(url, token, net) == (match net.getText(url, map[])
                                            case None => Err(RequestError(url))
                                            case Some(content) => Ok(content))
  {
    NoPrefixNoGistUrl(url);
  }

  /** A source with an `http://` or `https://` prefix and no gist page prefix inside is fetched
      as a page with a plain GET. */
  lemma FetchesPlainUrl(src: string, token: Option<string>, net: Network)
    requires StartsWith(src, "http://") || StartsWith(src, "https://")
    requires !Contains(src, GistPagePrefix)
    ensures Fetch(src, token, net) == (match net.getText(src, map[])
                                       case None => Err(RequestError(src))
                                       case Some(content) => Ok(content))
  {
    UrlContentPlain(src, token, net);
  }

  /** A source with neither prefix that is not a gist id is read from the file system. */
  lemma FetchesPathFromFile(src: string, token: Option<string>, net: Network)
    requires !StartsWith(src, "http://") && !StartsWith(src, "https://") && !IsGistId(src)
    ensures Fetch(src, token, net) == (match net.readFile(src)
                                       case None => Err(FileUnreadable(src))
                                       case Some(content) => Ok(content))
  {
  }

  /** A gist page URL fetches the gist it names through the API, not the page. */
  lemma GistPageFetchesGist(user: string, id: string, tail: string, token: Option<string>, net: Network)
    requires user != [] && '/' !in user
    requires |id| >= 20 && IsHex(id)
    requires tail == [] || !IsHexDigit(tail[0])
    ensures Fetch(GistPagePrefix + user + "/" + id + tail, token, net) == GistContent(id, token, net)
  {
    var url := GistPagePrefix + user + "/" + id + tail;
    GistUrlRoundTrip(user, id, tail);
    assert url == "https://" + (url[8..]);
    ConcatParts("https://", url[8..]);
  }

  /** A gist id is fetched through the API whatever its length beyond twenty digits. */
  lemma GistIdFetchesGist(id: string, token: Option<string>, net: Network)
    requires |id| >= 20 && IsHex(id)
    ensures Fetch(id, token, net) == GistContent(id, token, net)
  {
    GistIdIsNotUrl(id);
  }
}
