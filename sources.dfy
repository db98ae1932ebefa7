/** What both fetchers share: how a source string is classified, how a gist id is recognised on
    its own and inside a gist page URL, the request headers for the gist API, the shape of the API's
    file listing, and the effects of the network and the file system, which reach the model as
    an abstract `Network`. */
module Sources {
  import opened Wrappers
  import opened Text

  // ---------------------------------------------------------------------------------------
  // Classifying a source

  predicate IsHexDigit(c: char)
  {
    '0' <= c <= '9' || 'a' <= c <= 'f'
  }

  predicate IsHex(s: string)
  {
    forall i :: 0 <= i < |s| ==> IsHexDigit(s[i])
  }

  /** `GIST_RE.match(s)` with `GIST_RE = re.compile(r"^[0-9a-f]{20,}$")`: twenty or more
      lower-case hexadecimal digits, where `$` also accepts one newline ending the text. */
  predicate IsGistId(s: string)
  {
    (|s| >= 20 && IsHex(s))
    || (|s| >= 21 && s[|s| - 1] == '\n' && IsHex(s[..|s| - 1]))
  }

  predicate IsUrl(s: string)
  {
    StartsWith(s, "http://") || StartsWith(s, "https://")
  }

  datatype SourceKind = Url | GistId | LocalPath

  /** The dispatch of `fetch_markdown`: a URL prefix first, then a gist id, else a path. */
  function Classify(src: string): (r: SourceKind)
    ensures r == Url <==> IsUrl(src)
    ensures r == GistId <==> !IsUrl(src) && IsGistId(src)
    ensures r == LocalPath <==> !IsUrl(src) && !IsGistId(src)
  {
    if IsUrl(src) then Url else if IsGistId(src) then GistId else LocalPath
  }

  /** The order of the first two tests does not matter: no gist id starts like a URL, since
      `h` and `t` are not hexadecimal digits. */
  lemma GistIdIsNotUrl(s: string)
    requires IsGistId(s)
    ensures !IsUrl(s)
  {
    assert IsHexDigit(s[0]) by {
      if !(|s| >= 20 && IsHex(s)) {
        assert s[..|s| - 1][0] == s[0];
      }
    }
  }

  /** A path that starts with `/` or `.` is always read from the file system. */
  lemma PathsAreLocal(s: string)
    requires s != [] && (s[0] == '/' || s[0] == '.')
    ensures Classify(s) == LocalPath
  {
    assert !IsHexDigit(s[0]);
    assert s[0] != 'h';
  }

  // ---------------------------------------------------------------------------------------
  // Gist page URLs

  const GistPagePrefix: string := "https://gist.github.com/"

  /** The length of the longest prefix of `s` without a `/`. */
  function NonSlashRun(s: string): (r: nat)
    ensures r <= |s| && '/' !in s[..r] && (r == |s| || s[r] == '/')
    decreases |s|
  {
    if s == [] || s[0] == '/' then 0
    else
      var r := NonSlashRun(s[1..]);
      assert s[..r + 1] == [s[0]] + s[1..][..r];
      r + 1
  }

  /** The length of the longest prefix of `s` made of hexadecimal digits. */
  function HexRun(s: string): (r: nat)
    ensures r <= |s| && IsHex(s[..r]) && (r == |s| || !IsHexDigit(s[r]))
    decreases |s|
  {
    if s == [] || !IsHexDigit(s[0]) then 0
    else
      var r := HexRun(s[1..]);
      assert s[..r + 1] == [s[0]] + s[1..][..r];
      r + 1
  }

  /** `GIST_URL_RE = re.compile(r"https://gist\.github\.com/[^/]+/([0-9a-f]{20,})")` tried at the
      head of `s`: the prefix, then what must follow it. */
  function GistUrlIdAt(s: string): (r: Option<string>)
    ensures r.Some? ==> |r.value| >= 20 && IsHex(r.value)
  {
    if StartsWith(s, GistPagePrefix) then UserAndId(s[|GistPagePrefix|..]) else None
  }

  /** After the prefix: a non-empty user name without `/`, a `/`, then the id, which the greedy
      repetition takes to the end of the hexadecimal run. */
  function UserAndId(rest: string): (r: Option<string>)
    ensures r.Some? ==> |r.value| >= 20 && IsHex(r.value)
  {
    var u := NonSlashRun(rest);
    if u == 0 || u == |rest| then None
    else
      var tail := rest[u + 1..];
      var h := HexRun(tail);
      if h < 20 then None else Some(tail[..h])
  }

  /** `GIST_URL_RE.search(url).group(1)`: the id of the leftmost match, if any. */
  function FindGistUrlId(url: string): (r: Option<string>)
    ensures r.Some? ==> |r.value| >= 20 && IsHex(r.value)
    decreases |url|
  {
    match GistUrlIdAt(url)
    case Some(id) => Some(id)
    case None => if url == [] then None else FindGistUrlId(url[1..])
  }

  /** A gist page URL gives back its id: the user name is any non-empty text without `/`, and
      whatever follows the id must not continue its hexadecimal run. */
  lemma GistUrlRoundTrip(user: string, id: string, tail: string)
    requires user != [] && '/' !in user
    requires |id| >= 20 && IsHex(id)
    requires tail == [] || !IsHexDigit(tail[0])
    ensures FindGistUrlId(GistPagePrefix + user + "/" + id + tail) == Some(id)
  {
    var rest := user + "/" + id + tail;
    assert GistPagePrefix + user + "/" + id + tail == GistPagePrefix + rest;
    ConcatParts(GistPagePrefix, rest);
    UserAndIdOf(user, id, tail);
  }

  /** The gist page link may come after any text that does not hold the prefix itself. */
  lemma GistUrlAfterText(pre: string, user: string, id: string, tail: string)
    requires !Contains(pre, GistPagePrefix)
    requires user != [] && '/' !in user
    requires |id| >= 20 && IsHex(id)
    requires tail == [] || !IsHexDigit(tail[0])
    ensures FindGistUrlId(pre + GistPagePrefix + user + "/" + id + tail) == Some(id)
  {
    var P := GistPagePrefix;
    AppendAssoc(pre, P, user);
    AppendAssoc(pre, P + user, "/");
    AppendAssoc(pre, P + user + "/", id);
    AppendAssoc(pre, P + user + "/" + id, tail);
    var url := P + user + "/" + id + tail;
    assert StartsWith(url, P) by {
      assert url[..|P|] == P;
    }
    GistUrlRoundTrip(user, id, tail);
    SkipsText(pre, url);
  }

  /** The leftmost search passes over text without the prefix to a URL that starts with it. */
  lemma {:induction false} SkipsText(pre: string, url: string)
    requires !Contains(pre, GistPagePrefix) && StartsWith(url, GistPagePrefix)
    ensures FindGistUrlId(pre + url) == FindGistUrlId(url)
    decreases |pre|
  {
    if pre == [] {
      assert pre + url == url;
    } else {
      PrefixNotAcross(pre, url);
      assert (pre + url)[1..] == pre[1..] + url;
      SkipsText(pre[1..], url);
    }
  }

  /** No match of the prefix starts inside `pre` and runs on into a following prefix. */
  lemma PrefixNotAcross(pre: string, url: string)
    requires pre != [] && !StartsWith(pre, GistPagePrefix) && StartsWith(url, GistPagePrefix)
    ensures !StartsWith(pre + url, GistPagePrefix)
  {
    forall m | 1 <= m < |GistPagePrefix| - 1
      ensures GistPagePrefix[m] != GistPagePrefix[0] || GistPagePrefix[m + 1] != GistPagePrefix[1]
    {
      PrefixBorder(m);
    }
    NotAcross(GistPagePrefix, pre, url);
  }

  /** `https://gist.github.com/` does not overlap a shifted copy of itself: an `h` inside it
      is never followed by a `t`. */
  lemma PrefixBorder(m: int)
    requires 1 <= m < |GistPagePrefix| - 1
    ensures GistPagePrefix[m] != 'h' || GistPagePrefix[m + 1] != 't'
  {
    var P := GistPagePrefix;
    if m < 16 {
      assert P[m] != 'h' by { assert 'h' !in P[1..16]; assert P[m] == P[1..16][m - 1]; }
    } else if m > 16 {
      assert P[m] != 'h' by { assert 'h' !in P[17..]; assert P[m] == P[17..][m - 17]; }
    } else {
      assert P[17] == 'u';
    }
  }

  lemma UserAndIdOf(user: string, id: string, tail: string)
    requires user != [] && '/' !in user
    requires |id| >= 20 && IsHex(id)
    requires tail == [] || !IsHexDigit(tail[0])
    ensures UserAndId(user + "/" + id + tail) == Some(id)
  {
    assert user + "/" + id + tail == user + "/" + (id + tail);
    UserPart(user, id + tail);
    HexRunOf(id, tail);
    assert (id + tail)[..|id|] == id;
  }

  /** The user name is the run before the first `/`, and the id starts after it. */
  lemma UserPart(user: string, after: string)
    requires user != [] && '/' !in user
    ensures var rest := user + "/" + after;
            NonSlashRun(rest) == |user| < |rest| && rest[|user| + 1..] == after
  {
    var rest := user + "/" + after;
    assert rest == user + ("/" + after);
    NonSlashRunOf(user, "/" + after);
    assert rest[|user| + 1..] == after;
  }

  lemma {:induction false} NonSlashRunOf(a: string, b: string)
    requires '/' !in a && b != [] && b[0] == '/'
    ensures NonSlashRun(a + b) == |a|
    decreases |a|
  {
    if a != [] {
      assert (a + b)[1..] == a[1..] + b;
      NonSlashRunOf(a[1..], b);
    }
  }

  lemma {:induction false} HexRunOf(a: string, b: string)
    requires IsHex(a) && (b == [] || !IsHexDigit(b[0]))
    ensures HexRun(a + b) == |a|
    decreases |a|
  {
    if a == [] {
      assert a + b == b;
    } else {
      assert (a + b)[1..] == a[1..] + b;
      HexRunOf(a[1..], b);
    }
  }

  /** A URL that does not contain the gist page prefix is not a gist URL. */
  lemma {:induction false} NoPrefixNoGistUrl(url: string)
    requires !Contains(url, GistPagePrefix)
    ensures FindGistUrlId(url) == None
    decreases |url|
  {
    if url != [] {
      NoPrefixNoGistUrl(url[1..]);
    }
  }

  // ---------------------------------------------------------------------------------------
  // The gist API

  const AcceptValue: string := "application/vnd.github.v3+json"

  /** `"https://api.github.com/gists/" + gist_id`. */
  function ApiUrl(gistId: string): (r: string)
    ensures StartsWith(r, "https://api.github.com/gists/") && r[29..] == gistId
  {
    ConcatParts("https://api.github.com/gists/", gistId);
    "https://api.github.com/gists/" + gistId
  }

  /** The headers of the API request: `Accept` always, and `Authorization: token <T>` exactly
      when the `GITHUB_TOKEN` environment variable is set to a non-empty value. */
  function GistHeaders(token: Option<string>): (r: map<string, string>)
    ensures "Accept" in r && r["Accept"] == AcceptValue
    ensures "Authorization" in r <==> token.Some? && token.value != ""
    ensures "Authorization" in r ==> r["Authorization"] == "token " + token.value
    ensures forall k :: k in r ==> k == "Accept" || k == "Authorization"
  {
    var h := map["Accept" := AcceptValue];
    if token.Some? && token.value != "" then h["Authorization" := "token " + token.value] else h
  }

  /** The header dictionary as the code fills it, key by key. */
  method BuildHeaders(token: Option<string>) returns (headers: map<string, string>)
    ensures headers == GistHeaders(token)
  {
    headers := map["Accept" := AcceptValue];
    if token.Some? && token.value != "" {
      headers := headers["Authorization" := "token " + token.value];
    }
  }

  /** One entry of the `files` object of the API's answer, in the answer's order: its key, and
      its `filename`, `type` and `raw_url` fields, each of which may be missing. */
  datatype GistFile = GistFile(key: string, filename: Option<string>, fileType: Option<string>, rawUrl: Option<string>)

  /** The API's answer: the request failed (a connection error, an error status or a body that
      is not JSON), or it parsed, with or without a `files` key. */
  datatype GistReply = RequestFailed | NoFilesKey | Files(files: seq<GistFile>)

  /** The effects the fetchers depend on. `getText(url, headers)` is the text of a successful
      response, `getGist(url, headers)` the decoded answer of the gist API, and `readFile(path)`
      the UTF-8 text of a local file; `None` stands for the exception each raises. */
  datatype Network = Network(
    getText: (string, map<string, string>) -> Option<string>,
    getGist: (string, map<string, string>) -> GistReply,
    readFile: string -> Option<string>)

  /** The exceptions that leave `fetch_markdown`. */
  datatype FetchError =
    | RequestError(url: string)               // a `requests` exception, propagated as is
    | FetchGistFailed(gistId: string)         // `ValueError("Failed to fetch gist …")`
    | InvalidGistFormat(key: string)          // `ValueError("Invalid gist response format …")`
    | NoMarkdownFile(available: seq<string>)  // `ValueError("No markdown file found in gist. Available files: …")`
    | NoMarkdownFileFound                     // `ValueError("No markdown file found in gist")`
    | MissingKey(key: string)                 // a `KeyError`, propagated as is
    | FileUnreadable(path: string)            // `read_text` failing

  /** The keys of the listing, in order. */
  function Names(files: seq<GistFile>): (r: seq<string>)
    ensures |r| == |files| && forall k :: 0 <= k < |files| ==> r[k] == files[k].key
    decreases |files|
  {
    if files == [] then [] else Names(files[..|files| - 1]) + [files[|files| - 1].key]
  }
}
