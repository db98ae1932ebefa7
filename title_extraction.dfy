/** `extract_title_from_content` of the improved parser: the first of the first three lines of
    the stripped content that reads as a title supplies the slide title, and the lines after it
    are the remaining content. */
module TitleExtraction {
  import opened Wrappers
  import opened Text
  import opened Cleaning

  /** The number of leading lines inspected. */
  const TitleLines: nat := 3

  /** A stripped line that reads as a title: a `#` heading, a line that starts and ends with
      `**`, or a line that starts with `**Слайд N:`. */
  predicate IsTitleLine(line: string)
  {
    StartsWith(line, "#") || (StartsWith(line, "**") && EndsWith(line, "**")) || HasSlidePrefix(line, "**")
  }

  /** The raw title a stripped line gives, by the fixed priority of the three rules. */
  function LineTitle(line: string): Option<string>
  {
    if StartsWith(line, "#") then Some(LStrip(LStripChar(line, '#')))
    else if StartsWith(line, "**") && EndsWith(line, "**") then Some(StripChar(line, '*'))
    else if HasSlidePrefix(line, "**") then Some(RStripChar(RemoveSlidePrefix(line, "**"), '*'))
    else None
  }

  /** A line gives a title exactly when one of the three rules applies to it. */
  lemma LineTitleRules(line: string)
    ensures LineTitle(line).Some? <==> IsTitleLine(line)
  {
  }

  /** How many of `n` lines the scan inspects: `len(lines[:3])`. */
  function Inspected(n: nat): (r: nat)
    ensures r <= n && r <= TitleLines && (r < TitleLines ==> r == n)
  {
    if n < TitleLines then n else TitleLines
  }

  /** A line whose stripped text gives a title. */
  predicate GivesTitle(line: string)
  {
    LineTitle(Strip(line)).Some?
  }

  /** The position of the first of the first three lines that gives a title. */
  function FirstTitleLine(lines: seq<string>): (r: Option<nat>)
    ensures r.Some? ==> r.value < Inspected(|lines|) && GivesTitle(lines[r.value])
                        && forall j {:trigger GivesTitle(lines[j])} :: 0 <= j < r.value ==> !GivesTitle(lines[j])
    ensures r.None? ==> forall j {:trigger GivesTitle(lines[j])} :: 0 <= j < Inspected(|lines|) ==> !GivesTitle(lines[j])
  {
    var r := FirstMatch(lines[..Inspected(|lines|)], GivesTitle);
    assert forall j :: 0 <= j < Inspected(|lines|) ==> lines[..Inspected(|lines|)][j] == lines[j];
    r
  }

  /** The lines of the stripped content. */
  function ContentLines(content: string): (r: seq<string>)
    ensures |r| >= 1
  {
    Split(Strip(content), '\n')
  }

  /** The title as the scan finds it, before cleaning, and the remaining content: `(None,
      content)` when no line gives a title or the title it gives is empty, and otherwise the
      title with the lines after its line, joined and stripped. */
  function ScanTitle(content: string): (r: (Option<string>, string))
    ensures r.0.None? ==> r.1 == content
    ensures r.0.Some? ==> r.0.value != "" && Trimmed(r.1)
  {
    var lines := ContentLines(content);
    match FirstTitleLine(lines)
    case None => (None, content)
    case Some(j) =>
      var raw := LineTitle(Strip(lines[j])).value;
      if raw == "" then (None, content) else (Some(raw), Strip(Join(lines[j + 1..], "\n")))
  }

  /** `extract_title_from_content`: the scanned title, cleaned, and the remaining content. */
  function ExtractTitle(content: string): (r: (Option<string>, string))
    ensures r.0.None? ==> r.1 == content
    ensures r.0.Some? ==> Normalized(r.0.value) && Trimmed(r.1)
    ensures r.0.Some? <==> ScanTitle(content).0.Some?
    ensures r.1 == ScanTitle(content).1
  {
    var s := ScanTitle(content);
    if s.0.Some? then (Some(CleanTitle(s.0.value)), s.1) else s
  }

  /** `extract_title_from_content`. */
  method ExtractTitleFromContent(content: string) returns (title: Option<string>, remaining: string)
    ensures (title, remaining) == ExtractTitle(content)
  {
    var lines := Split(Strip(content), '\n');
    var raw, remainingLines := FindTitleLine(lines);
    if FirstTitleLine(lines).Some? {
      ScanTitleFound(content, FirstTitleLine(lines).value);
    } else {
      ScanTitleNotFound(content);
    }
    if raw.Some? && raw.value != "" {
      title := Some(CleanTitle(raw.value));
      remaining := Strip(Join(remainingLines, "\n"));
    } else {
      title, remaining := None, content;
    }
  }

  /** The scan over `lines[:3]`, which stops at the first line giving a title: that line's raw
      title and the lines after it. */
  method FindTitleLine(lines: seq<string>) returns (raw: Option<string>, remainingLines: seq<string>)
    ensures FirstTitleLine(lines).None? ==> raw.None? && remainingLines == lines
    ensures FirstTitleLine(lines).Some? ==>
              var j := FirstTitleLine(lines).value;
              raw == LineTitle(Strip(lines[j])) && remainingLines == lines[j + 1..]
  {
    var n := Inspected(|lines|);
    var k := ScanFirst(lines[..n], GivesTitle);
    if k.Some? {
      var i := k.value;
      assert lines[..n][i] == lines[i];
      raw := LineTitle(Strip(lines[i]));
      remainingLines := lines[i + 1..];
    } else {
      raw, remainingLines := None, lines;
    }
  }

  /** Conversely, the first of the first three lines that gives a title is the one found. */
  lemma FirstTitleLineIs(lines: seq<string>, k: nat)
    requires k < Inspected(|lines|) && GivesTitle(lines[k])
    requires forall j {:trigger GivesTitle(lines[j])} :: 0 <= j < k ==> !GivesTitle(lines[j])
    ensures FirstTitleLine(lines) == Some(k)
  {
    var n := Inspected(|lines|);
    assert forall j :: 0 <= j < n ==> lines[..n][j] == lines[j];
    FirstMatchIs(lines[..n], GivesTitle, k);
  }

  // ---------------------------------------------------------------------------------------
  // What the extraction keeps

  /** On a title, the remainder is exactly what follows the title line: the stripped content is
      the lines up to and including the title line, then (when there is more) a newline and the
      text that the remainder strips. Earlier lines are dropped with the title line. */
  lemma ExtractTitleKeepsWhatFollows(content: string)
    requires ExtractTitle(content).0.Some?
    ensures var lines := ContentLines(content);
            var j := FirstTitleLine(lines).value;
            j < TitleLines
            && (j + 1 < |lines| ==>
                  Strip(content) == Join(lines[..j + 1], "\n") + "\n" + Join(lines[j + 1..], "\n")
                  && ExtractTitle(content).1 == Strip(Join(lines[j + 1..], "\n")))
            && (j + 1 == |lines| ==> ExtractTitle(content).1 == "")
  {
    ScanTitleKeepsWhatFollows(content);
  }

  lemma ScanTitleKeepsWhatFollows(content: string)
    requires ScanTitle(content).0.Some?
    ensures var lines := ContentLines(content);
            var j := FirstTitleLine(lines).value;
            j < TitleLines
            && (j + 1 < |lines| ==>
                  Strip(content) == Join(lines[..j + 1], "\n") + "\n" + Join(lines[j + 1..], "\n")
                  && ScanTitle(content).1 == Strip(Join(lines[j + 1..], "\n")))
            && (j + 1 == |lines| ==> ScanTitle(content).1 == "")
  {
    ScanTitleRemainder(content);
    LinesAround(Strip(content), FirstTitleLine(ContentLines(content)).value);
  }

  /** The text is the lines up to the `j`-th, a newline, and the lines after it, when there
      are any; nothing follows the last line. */
  lemma LinesAround(s: string, j: nat)
    requires j < |Split(s, '\n')|
    ensures var lines := Split(s, '\n');
            (j + 1 < |lines| ==> s == Join(lines[..j + 1], "\n") + "\n" + Join(lines[j + 1..], "\n"))
            && (j + 1 == |lines| ==> Strip(Join(lines[j + 1..], "\n")) == "")
  {
    if j + 1 < |Split(s, '\n')| {
      SplitAround(s, '\n', j + 1);
    } else {
      assert Split(s, '\n')[j + 1..] == [];
    }
  }

  lemma ExtractTitleRemainder(content: string)
    requires ExtractTitle(content).0.Some?
    ensures FirstTitleLine(ContentLines(content)).Some?
    ensures ExtractTitle(content).1
         == Strip(Join(ContentLines(content)[FirstTitleLine(ContentLines(content)).value + 1..], "\n"))
  {
    ScanTitleRemainder(content);
  }

  lemma ScanTitleRemainder(content: string)
    requires ScanTitle(content).0.Some?
    ensures FirstTitleLine(ContentLines(content)).Some?
    ensures ScanTitle(content).1
         == Strip(Join(ContentLines(content)[FirstTitleLine(ContentLines(content)).value + 1..], "\n"))
  {
  }

  lemma FirstTitleLineAgrees(l1: seq<string>, l2: seq<string>)
    requires Inspected(|l1|) == Inspected(|l2|)
    requires forall j :: 0 <= j < Inspected(|l1|) ==> l1[j] == l2[j]
    ensures FirstTitleLine(l1) == FirstTitleLine(l2)
    ensures FirstTitleLine(l1).Some? ==> l1[FirstTitleLine(l1).value] == l2[FirstTitleLine(l1).value]
  {
    var n := Inspected(|l1|);
    assert l1[..n] == l2[..n];
  }

  /** Only the first three lines are inspected: two contents whose first three stripped lines
      agree get the same title. */
  lemma ExtractTitleReadsThreeLines(c1: string, c2: string)
    requires Inspected(|ContentLines(c1)|) == Inspected(|ContentLines(c2)|)
    requires forall j :: 0 <= j < Inspected(|ContentLines(c1)|) ==> ContentLines(c1)[j] == ContentLines(c2)[j]
    ensures ExtractTitle(c1).0 == ExtractTitle(c2).0
  {
    ScanTitleReadsThreeLines(c1, c2);
  }

  lemma ScanTitleReadsThreeLines(c1: string, c2: string)
    requires Inspected(|ContentLines(c1)|) == Inspected(|ContentLines(c2)|)
    requires forall j :: 0 <= j < Inspected(|ContentLines(c1)|) ==> ContentLines(c1)[j] == ContentLines(c2)[j]
    ensures ScanTitle(c1).0 == ScanTitle(c2).0
  {
    FirstTitleLineAgrees(ContentLines(c1), ContentLines(c2));
    SameFirstTitleLine(c1, c2);
  }

  lemma SameFirstTitleLine(c1: string, c2: string)
    requires FirstTitleLine(ContentLines(c1)) == FirstTitleLine(ContentLines(c2))
    requires FirstTitleLine(ContentLines(c1)).Some? ==>
               ContentLines(c1)[FirstTitleLine(ContentLines(c1)).value]
               == ContentLines(c2)[FirstTitleLine(ContentLines(c1)).value]
    ensures ScanTitle(c1).0 == ScanTitle(c2).0
  {
    match FirstTitleLine(ContentLines(c1))
    case None =>
      NoTitleLine(c1, c2);
    case Some(j) =>
      SameTitleLine(c1, c2, j);
  }

  lemma NoTitleLine(c1: string, c2: string)
    requires FirstTitleLine(ContentLines(c1)) == None && FirstTitleLine(ContentLines(c2)) == None
    ensures ScanTitle(c1).0 == ScanTitle(c2).0
  {
    ScanTitleNotFound(c1);
    ScanTitleNotFound(c2);
  }

  lemma SameTitleLine(c1: string, c2: string, j: nat)
    requires FirstTitleLine(ContentLines(c1)) == Some(j) && FirstTitleLine(ContentLines(c2)) == Some(j)
    requires ContentLines(c1)[j] == ContentLines(c2)[j]
    ensures ScanTitle(c1).0 == ScanTitle(c2).0
  {
    ScanTitleFoundTitle(c1, j);
    ScanTitleFoundTitle(c2, j);
  }

  lemma ScanTitleFoundTitle(content: string, j: nat)
    requires FirstTitleLine(ContentLines(content)) == Some(j)
    ensures var raw := LineTitle(Strip(ContentLines(content)[j])).value;
            ScanTitle(content).0 == if raw == "" then None else Some(raw)
  {
    ScanTitleFound(content, j);
  }

  // ---------------------------------------------------------------------------------------
  // The title rules on a first line

  /** The lines of a content made of a first line and a rest, neither with whitespace at its
      ends: the first line, then the lines of the rest. */
  lemma LinesOfFirstLine(h: string, body: string)
    requires h != [] && '\n' !in h && Trimmed(h) && body != [] && Trimmed(body)
    ensures Strip(h + "\n" + body) == h + "\n" + body
    ensures ContentLines(h + "\n" + body) == [h] + Split(body, '\n')
  {
    FirstLineTrimmed(h, body);
    SplitAtFirstLine(h, body);
  }

  lemma FirstLineTrimmed(h: string, body: string)
    requires h != [] && Trimmed(h) && body != [] && Trimmed(body)
    ensures Strip(h + "\n" + body) == h + "\n" + body
  {
    var s := h + "\n" + body;
    assert s[0] == h[0] && s[|s| - 1] == body[|body| - 1];
    StripTrimmed(s);
  }

  lemma SplitAtFirstLine(h: string, body: string)
    requires '\n' !in h
    ensures Split(h + "\n" + body, '\n') == [h] + Split(body, '\n')
  {
    var u := "\n" + body;
    assert h + "\n" + body == h + u;
    SplitNoSep(h, u, '\n');
    assert u[0] == '\n' && u[1..] == body;
    assert Split(u, '\n') == [[]] + Split(body, '\n');
    assert h + [] == h;
  }

  /** The scan once unfolded, for a title on the first line. */
  lemma ScanTitleAtFirstLine(content: string, raw: string)
    requires LineTitle(Strip(ContentLines(content)[0])) == Some(raw)
    ensures ScanTitle(content)
         == if raw == "" then (None, content) else (Some(raw), Strip(Join(ContentLines(content)[1..], "\n")))
  {
    var lines := ContentLines(content);
    assert GivesTitle(lines[0]);
    FirstTitleLineIs(lines, 0);
    ScanTitleFound(content, 0);
  }

  lemma ScanTitleNotFound(content: string)
    requires FirstTitleLine(ContentLines(content)) == None
    ensures ScanTitle(content) == (None, content)
  {
  }

  lemma ScanTitleFound(content: string, j: nat)
    requires FirstTitleLine(ContentLines(content)) == Some(j)
    ensures var lines := ContentLines(content);
            var raw := LineTitle(Strip(lines[j])).value;
            ScanTitle(content) == if raw == "" then (None, content) else (Some(raw), Strip(Join(lines[j + 1..], "\n")))
  {
  }

  /** A first line that gives a non-empty title supplies it, cleaned, and the rest of the
      content is the remainder. */
  lemma ExtractTitleFromFirstLine(h: string, body: string, raw: string)
    requires h != [] && '\n' !in h && Trimmed(h) && body != [] && Trimmed(body)
    requires LineTitle(h) == Some(raw) && raw != ""
    ensures ExtractTitle(h + "\n" + body) == (Some(CleanTitle(raw)), body)
  {
    FirstLineUnfolded(h, body, raw);
  }

  lemma FirstLineUnfolded(h: string, body: string, raw: string)
    requires h != [] && '\n' !in h && Trimmed(h) && body != [] && Trimmed(body)
    requires LineTitle(h) == Some(raw)
    ensures ScanTitle(h + "\n" + body) == if raw == "" then (None, h + "\n" + body) else (Some(raw), body)
  {
    var content := h + "\n" + body;
    LinesOfFirstLine(h, body);
    var lines := ContentLines(content);
    StripTrimmed(h);
    assert lines[0] == h;
    assert lines[1..] == Split(body, '\n');
    JoinSplit(body, '\n');
    StripTrimmed(body);
    ScanTitleAtFirstLine(content, raw);
  }

  /** A first line that gives an empty title (such as `#` or `**`) ends the scan without a
      title, whatever title the next lines would give: the content comes back unchanged. */
  lemma ExtractTitleEmptyFirstLine(h: string, body: string)
    requires h != [] && '\n' !in h && Trimmed(h) && body != [] && Trimmed(body)
    requires LineTitle(h) == Some("")
    ensures ExtractTitle(h + "\n" + body) == (None, h + "\n" + body)
  {
    FirstLineUnfolded(h, body, "");
  }

  /** `# Title` on the first line gives `Title`. */
  lemma ExtractTitleHeading(w: string, body: string)
    requires w != [] && Normalized(w) && w[0] != '*' && w[|w| - 1] != '*' && !StartsWith(w, SlideWord)
    requires body != [] && Trimmed(body)
    ensures ExtractTitle("# " + w + "\n" + body) == (Some(w), body)
  {
    NormalizedHasNoNewline(w);
    HeadingLine(w);
    CleanTitleFixpoint(w);
    ExtractTitleFromFirstLine("# " + w, body, w);
  }

  lemma HeadingLine(w: string)
    requires w != [] && '\n' !in w && Trimmed(w)
    ensures var h := "# " + w;
            '\n' !in h && Trimmed(h) && LineTitle(h) == Some(w)
  {
    HeadingText(w);
    HeadingRule("# " + w);
  }

  lemma HeadingText(w: string)
    requires w != [] && '\n' !in w && Trimmed(w)
    ensures var h := "# " + w;
            '\n' !in h && Trimmed(h) && StartsWith(h, "#") && LStrip(LStripChar(h, '#')) == w
  {
    HeadingHasNoNewline(w);
    HeadingEnds(w);
    HeadingStripped(w);
  }

  lemma HeadingHasNoNewline(w: string)
    requires '\n' !in w
    ensures '\n' !in "# " + w
  {
    var h := "# " + w;
    assert h[0] != '\n' && h[1] != '\n' && h[2..] == w;
  }

  lemma HeadingEnds(w: string)
    requires w != [] && Trimmed(w)
    ensures var h := "# " + w;
            Trimmed(h) && StartsWith(h, "#")
  {
    var h := "# " + w;
    assert h[..1] == "#";
    assert h[|h| - 1] == w[|w| - 1];
  }

  lemma HeadingStripped(w: string)
    requires w != [] && !IsSpace(w[0])
    ensures LStrip(LStripChar("# " + w, '#')) == w
  {
    assert "# " + w == "#" + (" " + w);
    LStripCharOver("#", " " + w, '#');
    LStripSpaceHead(w);
    LStripUnspaced(w);
  }

  /** The first rule takes any line that starts with `#`. */
  lemma HeadingRule(h: string)
    requires StartsWith(h, "#")
    ensures LineTitle(h) == Some(LStrip(LStripChar(h, '#')))
  {
  }

  /** `**Title**` on the first line gives `Title`. */
  lemma ExtractTitleBold(w: string, body: string)
    requires w != [] && Normalized(w) && w[0] != '*' && w[|w| - 1] != '*' && !StartsWith(w, SlideWord)
    requires body != [] && Trimmed(body)
    ensures ExtractTitle("**" + w + "**" + "\n" + body) == (Some(w), body)
  {
    var h := "**" + w + "**";
    NormalizedHasNoNewline(w);
    BoldLine(w);
    CleanTitleFixpoint(w);
    ExtractTitleFromFirstLine(h, body, w);
  }

  lemma BoldLine(w: string)
    requires w != [] && '\n' !in w && w[0] != '*' && w[|w| - 1] != '*'
    ensures var h := "**" + w + "**";
            '\n' !in h && Trimmed(h) && LineTitle(h) == Some(w)
  {
    var h := "**" + w + "**";
    BoldHasNoNewline(w);
    BoldDelimited(w);
    BoldStripped(w);
    BoldRule(h);
  }

  /** The second rule applies to a line that the first does not take. */
  lemma BoldRule(h: string)
    requires !StartsWith(h, "#") && StartsWith(h, "**") && EndsWith(h, "**")
    ensures LineTitle(h) == Some(StripChar(h, '*'))
  {
  }

  lemma BoldDelimited(w: string)
    ensures var h := "**" + w + "**";
            h[0] == '*' && h[|h| - 1] == '*' && !StartsWith(h, "#") && StartsWith(h, "**") && EndsWith(h, "**")
  {
    var h := "**" + w + "**";
    assert h[..2] == "**" && h[|h| - 2..] == "**";
    assert h[..1][0] == '*';
  }

  lemma BoldHasNoNewline(w: string)
    requires '\n' !in w
    ensures '\n' !in "**" + w + "**"
  {
    var h := "**" + w + "**";
    assert forall i :: 0 <= i < |h| ==> h[i] == '*' || h[i] in w;
  }

  lemma BoldStripped(w: string)
    requires w != [] && w[0] != '*' && w[|w| - 1] != '*'
    ensures StripChar("**" + w + "**", '*') == w
  {
    assert "**" + w + "**" == "**" + (w + "**");
    LStripCharOver("**", w + "**", '*');
    RStripCharOver(w, "**", '*');
  }

  /** `**Слайд N: Title**` on the first line gives `Title`: the bold rule takes the line and the
      cleaning removes the numbering. */
  lemma ExtractTitleNumberedBold(n: nat, w: string, body: string)
    requires w != [] && Normalized(w) && w[0] != '*' && w[|w| - 1] != '*' && !StartsWith(w, SlideWord)
    requires body != [] && Trimmed(body)
    ensures ExtractTitle("**" + SlideWord + " " + NatToString(n) + ": " + w + "**" + "\n" + body)
         == (Some(w), body)
  {
    var v := SlideWord + " " + NatToString(n) + ": " + w;
    assert "**" + SlideWord + " " + NatToString(n) + ": " + w + "**" == "**" + v + "**";
    NumberedLine(n, w);
    BoldLine(v);
    NumberedTitleCleaned(n, w);
    ExtractTitleFromFirstLine("**" + v + "**", body, v);
  }

  /** `**Слайд N: Title` without closing asterisks on the first line gives `Title`: only the
      third rule takes the line. */
  lemma ExtractTitleNumbered(n: nat, w: string, body: string)
    requires w != [] && Normalized(w) && w[0] != '*' && w[|w| - 1] != '*' && !StartsWith(w, SlideWord)
    requires body != [] && Trimmed(body)
    ensures ExtractTitle("**" + SlideWord + " " + NatToString(n) + ": " + w + "\n" + body) == (Some(w), body)
  {
    NumberedOpenLine(n, w);
    CleanTitleFixpoint(w);
    ExtractTitleFromFirstLine("**" + SlideWord + " " + NatToString(n) + ": " + w, body, w);
  }

  lemma NumberedOpenLine(n: nat, w: string)
    requires w != [] && Normalized(w) && w[|w| - 1] != '*'
    ensures var h := "**" + SlideWord + " " + NatToString(n) + ": " + w;
            '\n' !in h && Trimmed(h) && LineTitle(h) == Some(w)
  {
    var h := "**" + SlideWord + " " + NatToString(n) + ": " + w;
    NumberedOpenShape(n, w);
    RemovesSlidePrefix("**", n, w);
    RStripCharOver(w, "", '*');
    assert w + "" == w;
    ThirdRule(h, w);
  }

  lemma NumberedOpenShape(n: nat, w: string)
    requires w != [] && Normalized(w) && w[|w| - 1] != '*'
    ensures var h := "**" + SlideWord + " " + NatToString(n) + ": " + w;
            '\n' !in h && Trimmed(h) && |w| < |h| && !StartsWith(h, "#") && !EndsWith(h, "**")
  {
    var h := "**" + SlideWord + " " + NatToString(n) + ": " + w;
    var v := SlideWord + " " + NatToString(n) + ": " + w;
    NumberedLine(n, w);
    assert h == "**" + v;
    assert forall i :: 0 <= i < |h| ==> h[i] == '*' || h[i] in v;
    assert h[0] == '*' && h[|h| - 1] == w[|w| - 1];
    assert h[..1][0] == '*';
    assert h[|h| - 2..][1] == h[|h| - 1];
  }

  /** The third rule applies to a line that neither of the first two takes. */
  lemma ThirdRule(h: string, w: string)
    requires !StartsWith(h, "#") && !EndsWith(h, "**")
    requires RemoveSlidePrefix(h, "**") == w && |w| < |h| && RStripChar(w, '*') == w
    ensures LineTitle(h) == Some(w)
  {
  }

  lemma NumberedLine(n: nat, w: string)
    requires w != [] && Normalized(w)
    ensures var v := SlideWord + " " + NatToString(n) + ": " + w;
            v != [] && '\n' !in v && v[0] != '*' && v[|v| - 1] == w[|w| - 1]
  {
    var v := SlideWord + " " + NatToString(n) + ": " + w;
    NormalizedHasNoNewline(w);
    var d := NatToString(n);
    assert '\n' !in d by { assert forall i :: 0 <= i < |d| ==> IsDigit(d[i]); }
    assert v[0] == SlideWord[0];
  }

  lemma NumberedTitleCleaned(n: nat, w: string)
    requires w != [] && Normalized(w) && w[0] != '*' && w[|w| - 1] != '*' && !StartsWith(w, SlideWord)
    ensures CleanTitle(SlideWord + " " + NatToString(n) + ": " + w) == w
  {
    var s := SlideWord + " " + NatToString(n) + ": " + w;
    assert "" + SlideWord + " " + NatToString(n) + ": " + w == s;
    assert !StartsWith(w, "**" + SlideWord);
    CleanTitleDropsSlidePrefix("", n, w);
    CleanTitleFixpoint(w);
  }
}
