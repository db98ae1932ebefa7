/** `analyze_presentation_quality`: per-slide statistics and issues over a loaded presentation,
    then a quality score from 100 with penalties and bonuses, clamped to `[0, 100]`, and its
    grade. Loading the file is foreign code, so the slides reach the model already read: each
    with the text of its title placeholder, if it has one, and its shapes. */
module Analyzer {
  import opened Wrappers
  import opened Text

  // ---------------------------------------------------------------------------------------
  // Slides and their shapes

  /** A shape as the loop tells them apart: one that can hold text (a text box, or any shape
      with a text frame), with its `text` when it has that attribute; a picture; anything else. */
  datatype Shape = TextShape(text: Option<string>) | PictureShape | OtherShape

  datatype SlideInfo = SlideInfo(title: Option<string>, shapes: seq<Shape>)

  /** The counters of the shape loop. */
  datatype Tally = Tally(textShapes: nat, imageShapes: nat, otherShapes: nat, textLength: nat)

  /** A text shape counts when its text is not blank, with the length of its unstripped text; a
      text shape that is blank counts as nothing at all. */
  function TallyOf(s: Shape): Tally
  {
    match s
    case TextShape(t) =>
      if t.Some? && Strip(t.value) != "" then Tally(1, 0, 0, |t.value|) else Tally(0, 0, 0, 0)
    case PictureShape => Tally(0, 1, 0, 0)
    case OtherShape => Tally(0, 0, 1, 0)
  }

  function Plus(a: Tally, b: Tally): Tally
  {
    Tally(a.textShapes + b.textShapes, a.imageShapes + b.imageShapes, a.otherShapes + b.otherShapes,
          a.textLength + b.textLength)
  }

  /** The sum of `f` over `xs`. */
  function Sum<T>(xs: seq<T>, f: T -> Tally): Tally
    decreases |xs|
  {
    if xs == [] then Tally(0, 0, 0, 0) else Plus(Sum(xs[..|xs| - 1], f), f(xs[|xs| - 1]))
  }

  lemma SumSnoc<T>(xs: seq<T>, i: nat, f: T -> Tally)
    requires i < |xs|
    ensures Sum(xs[..i + 1], f) == Plus(Sum(xs[..i], f), f(xs[i]))
  {
    assert xs[..i + 1][..i] == xs[..i];
  }

  /** The counters after the shape loop. */
  function ShapeTally(shapes: seq<Shape>): Tally
  {
    Sum(shapes, TallyOf)
  }

  /** Shapes are counted at most once, and text is only counted with a text shape. */
  lemma {:induction false} TallyBounds(shapes: seq<Shape>)
    ensures ShapeTally(shapes).textShapes + ShapeTally(shapes).imageShapes + ShapeTally(shapes).otherShapes <= |shapes|
    ensures ShapeTally(shapes).textLength > 0 ==> ShapeTally(shapes).textShapes > 0
    decreases |shapes|
  {
    if shapes != [] {
      TallyBounds(shapes[..|shapes| - 1]);
    }
  }

  /** The shape loop, its four counters held as a `Tally`. */
  method CountShapes(shapes: seq<Shape>) returns (t: Tally)
    ensures t == ShapeTally(shapes)
  {
    t := Tally(0, 0, 0, 0);
    for i := 0 to |shapes|
      invariant t == Sum(shapes[..i], TallyOf)
    {
      SumSnoc(shapes, i, TallyOf);
      t := CountShape(t, shapes[i]);
    }
    WholeSlice(shapes);
  }

  /** The body of the shape loop: the counters after one more shape. */
  method CountShape(before: Tally, shape: Shape) returns (t: Tally)
    ensures t == Plus(before, TallyOf(shape))
  {
    t := before;
    match shape {
      case TextShape(text) =>
        if text.Some? && Strip(text.value) != "" {
          t := t.(textShapes := t.textShapes + 1, textLength := t.textLength + |text.value|);
        }
      case PictureShape =>
        t := t.(imageShapes := t.imageShapes + 1);
      case OtherShape =>
        t := t.(otherShapes := t.otherShapes + 1);
    }
  }

  // ---------------------------------------------------------------------------------------
  // Issues of one slide

  /** The issues, each with the 1-based number of its slide. */
  datatype Issue = EmptyTitle(slide: nat) | MissingTitle(slide: nat) | EmptySlide(slide: nat)
                 | TooMuchText(slide: nat) | MetaInTitle(slide: nat)

  const MetaMarker: string := "**Слайд"
  const TextLimit: nat := 1000

  /** The stripped title text, `""` without a title placeholder. */
  function TitleText(s: SlideInfo): string
  {
    if s.title.Some? then Strip(s.title.value) else ""
  }

  predicate Titled(s: SlideInfo)
  {
    TitleText(s) != ""
  }

  predicate HasContent(s: SlideInfo)
  {
    ShapeTally(s.shapes).textShapes > 0 || ShapeTally(s.shapes).imageShapes > 0
  }

  /** The issues of slide number `i` from the outcome of each check, in the order of the
      checks: the title is missing or blank, the slide has no content, it has too much text, its
      title carries the meta marker. */
  function IssuesOf(i: nat, missing: bool, blank: bool, empty: bool, tooLong: bool, meta: bool): seq<Issue>
  {
    (if missing then [MissingTitle(i)] else if blank then [EmptyTitle(i)] else [])
    + (if empty then [EmptySlide(i)] else [])
    + (if tooLong then [TooMuchText(i)] else [])
    + (if meta then [MetaInTitle(i)] else [])
  }

  /** Each issue is reported exactly when its check fails, the blank title only when the title
      is not missing. */
  lemma IssuesOfMembers(i: nat, missing: bool, blank: bool, empty: bool, tooLong: bool, meta: bool)
    ensures var r := IssuesOf(i, missing, blank, empty, tooLong, meta);
            (MissingTitle(i) in r <==> missing)
            && (EmptyTitle(i) in r <==> !missing && blank)
            && (EmptySlide(i) in r <==> empty)
            && (TooMuchText(i) in r <==> tooLong)
            && (MetaInTitle(i) in r <==> meta)
            && (forall x :: x in r ==> x.slide == i)
  {
  }

  /** The issues of slide number `i`. */
  function SlideIssues(i: nat, s: SlideInfo): seq<Issue>
  {
    var t := ShapeTally(s.shapes);
    IssuesOf(i, s.title.None?, TitleText(s) == "", t.textShapes == 0 && t.imageShapes == 0,
             t.textLength > TextLimit, Contains(TitleText(s), MetaMarker))
  }

  /** The issue list as the checks append to it, one after the other. */
  lemma IssuesInOrder(i: nat, missing: bool, blank: bool, empty: bool, tooLong: bool, meta: bool,
                      a: seq<Issue>, b: seq<Issue>, c: seq<Issue>, d: seq<Issue>)
    requires a == if missing then [MissingTitle(i)] else if blank then [EmptyTitle(i)] else []
    requires b == if empty then a + [EmptySlide(i)] else a
    requires c == if tooLong then b + [TooMuchText(i)] else b
    requires d == if meta then c + [MetaInTitle(i)] else c
    ensures d == IssuesOf(i, missing, blank, empty, tooLong, meta)
  {
  }

  /** A slide has at most two issues: a title problem leaves no title text to carry the marker,
      and a slide with too much text is not empty. */
  lemma AtMostTwoIssues(i: nat, s: SlideInfo)
    ensures |SlideIssues(i, s)| <= 2
  {
    TallyBounds(s.shapes);
    var t := ShapeTally(s.shapes);
    var meta := Contains(TitleText(s), MetaMarker);
    if !Titled(s) {
      NothingInEmpty(MetaMarker);
    }
    AtMostTwo(i, s.title.None?, TitleText(s) == "", t.textShapes == 0 && t.imageShapes == 0,
              t.textLength > TextLimit, meta);
  }

  lemma NothingInEmpty(m: string)
    requires m != []
    ensures !Contains("", m)
  {
  }

  lemma AtMostTwo(i: nat, missing: bool, blank: bool, empty: bool, tooLong: bool, meta: bool)
    requires (missing || blank) ==> !meta
    requires !(empty && tooLong)
    ensures |IssuesOf(i, missing, blank, empty, tooLong, meta)| <= 2
  {
  }

  /** A slide is reported untitled exactly when it is not titled, and then once: as missing
      without a placeholder, as empty with a blank one. */
  lemma TitleIssue(i: nat, s: SlideInfo)
    ensures MissingTitle(i) in SlideIssues(i, s) <==> s.title.None?
    ensures EmptyTitle(i) in SlideIssues(i, s) <==> s.title.Some? && !Titled(s)
  {
    var t := ShapeTally(s.shapes);
    IssuesOfMembers(i, s.title.None?, TitleText(s) == "", t.textShapes == 0 && t.imageShapes == 0,
                    t.textLength > TextLimit, Contains(TitleText(s), MetaMarker));
  }

  /** A slide is reported empty exactly when it has no content. */
  lemma EmptySlideIssue(i: nat, s: SlideInfo)
    ensures EmptySlide(i) in SlideIssues(i, s) <==> !HasContent(s)
  {
    var t := ShapeTally(s.shapes);
    IssuesOfMembers(i, s.title.None?, TitleText(s) == "", t.textShapes == 0 && t.imageShapes == 0,
                    t.textLength > TextLimit, Contains(TitleText(s), MetaMarker));
  }

  /** A slide is reported for too much text exactly when the text of its text shapes is longer
      than the limit in total. */
  lemma TooMuchTextIssue(i: nat, s: SlideInfo)
    ensures TooMuchText(i) in SlideIssues(i, s) <==> ShapeTally(s.shapes).textLength > TextLimit
  {
    var t := ShapeTally(s.shapes);
    IssuesOfMembers(i, s.title.None?, TitleText(s) == "", t.textShapes == 0 && t.imageShapes == 0,
                    t.textLength > TextLimit, Contains(TitleText(s), MetaMarker));
  }

  /** A slide is reported for meta text in its title exactly when the title's text holds
      `**Слайд`. */
  lemma MetaTitleIssue(i: nat, s: SlideInfo)
    ensures MetaInTitle(i) in SlideIssues(i, s) <==> Contains(TitleText(s), MetaMarker)
  {
    var t := ShapeTally(s.shapes);
    IssuesOfMembers(i, s.title.None?, TitleText(s) == "", t.textShapes == 0 && t.imageShapes == 0,
                    t.textLength > TextLimit, Contains(TitleText(s), MetaMarker));
  }

  // ---------------------------------------------------------------------------------------
  // The slide loop

  /** The counters and the issue list after the slide loop. */
  datatype Stats = Stats(titled: nat, withContent: nat, textLength: nat, images: nat, issues: seq<Issue>)

  function AddStats(a: Stats, b: Stats): Stats
  {
    Stats(a.titled + b.titled, a.withContent + b.withContent, a.textLength + b.textLength,
          a.images + b.images, a.issues + b.issues)
  }

  /** What slide number `k` adds to the counters and the issue list. */
  function SlideStats(k: nat, s: SlideInfo): Stats
  {
    var t := ShapeTally(s.shapes);
    Stats(if Titled(s) then 1 else 0, if HasContent(s) then 1 else 0, t.textLength, t.imageShapes,
          SlideIssues(k, s))
  }

  /** The sum of `f(k, x)` over the elements `x` of `xs` with their 1-based positions `k`. */
  function Total<T>(xs: seq<T>, f: (nat, T) -> Stats): Stats
    decreases |xs|
  {
    if xs == [] then Stats(0, 0, 0, 0, []) else AddStats(Total(xs[..|xs| - 1], f), f(|xs|, xs[|xs| - 1]))
  }

  lemma TotalSnoc<T>(xs: seq<T>, i: nat, f: (nat, T) -> Stats)
    requires i < |xs|
    ensures Total(xs[..i + 1], f) == AddStats(Total(xs[..i], f), f(i + 1, xs[i]))
  {
    assert xs[..i + 1][..i] == xs[..i];
  }

  /** The counters and the issue list after the slide loop. */
  function Summary(slides: seq<SlideInfo>): Stats
  {
    Total(slides, SlideStats)
  }

  /** No counter exceeds the number of slides, and there are at most two issues per slide. */
  lemma {:induction false} SummaryBounds(slides: seq<SlideInfo>)
    ensures Summary(slides).titled <= |slides|
    ensures Summary(slides).withContent <= |slides|
    ensures |Summary(slides).issues| <= 2 * |slides|
    decreases |slides|
  {
    if slides != [] {
      SummaryBounds(slides[..|slides| - 1]);
      AtMostTwoIssues(|slides|, slides[|slides| - 1]);
    }
  }

  /** Every issue names a slide that exists. */
  lemma {:induction false} IssuesNameSlides(slides: seq<SlideInfo>)
    ensures forall x :: x in Summary(slides).issues ==> 1 <= x.slide <= |slides|
    decreases |slides|
  {
    if slides != [] {
      IssuesNameSlides(slides[..|slides| - 1]);
      SlideIssuesName(|slides|, slides[|slides| - 1]);
    }
  }

  lemma SlideIssuesName(k: nat, s: SlideInfo)
    ensures forall x :: x in SlideIssues(k, s) ==> x.slide == k
  {
    var t := ShapeTally(s.shapes);
    IssuesOfMembers(k, s.title.None?, TitleText(s) == "", t.textShapes == 0 && t.imageShapes == 0,
                    t.textLength > TextLimit, Contains(TitleText(s), MetaMarker));
  }

  /** The body of the slide loop for slide number `n`: its title check, its shape loop and its
      three further checks, with the issues in the order they are appended. */
  method InspectSlide(n: nat, slide: SlideInfo) returns (d: Stats)
    ensures d == SlideStats(n, slide)
  {
    var issues: seq<Issue> := [];
    var titled: nat := 0;
    var titleText := "";
    if slide.title.Some? {
      titleText := Strip(slide.title.value);
      if titleText != "" {
        titled := 1;
      } else {
        issues := issues + [EmptyTitle(n)];
      }
    } else {
      issues := issues + [MissingTitle(n)];
    }
    assert titleText == TitleText(slide);
    ghost var titleIssues := issues;
    var t := CountShapes(slide.shapes);
    var withContent: nat := if t.textShapes > 0 || t.imageShapes > 0 then 1 else 0;
    if t.textShapes == 0 && t.imageShapes == 0 {
      issues := issues + [EmptySlide(n)];
    }
    ghost var emptyIssues := issues;
    if t.textLength > TextLimit {
      issues := issues + [TooMuchText(n)];
    }
    ghost var lengthIssues := issues;
    if Contains(titleText, MetaMarker) {
      issues := issues + [MetaInTitle(n)];
    }
    IssuesInOrder(n, slide.title.None?, titleText == "", t.textShapes == 0 && t.imageShapes == 0,
                  t.textLength > TextLimit, Contains(titleText, MetaMarker),
                  titleIssues, emptyIssues, lengthIssues, issues);
    d := Stats(titled, withContent, t.textLength, t.imageShapes, issues);
  }

  /** The slide loop of `analyze_presentation_quality`. */
  method AnalyzeSlides(slides: seq<SlideInfo>) returns (stats: Stats)
    ensures stats == Summary(slides)
  {
    var issues: seq<Issue> := [];
    var totalTextLength: nat, totalImages: nat, withTitles: nat, withContent: nat := 0, 0, 0, 0;
    for i := 0 to |slides|
      invariant Stats(withTitles, withContent, totalTextLength, totalImages, issues) == Total(slides[..i], SlideStats)
    {
      TotalSnoc(slides, i, SlideStats);
      var d := InspectSlide(i + 1, slides[i]);
      withTitles := withTitles + d.titled;
      withContent := withContent + d.withContent;
      totalTextLength := totalTextLength + d.textLength;
      totalImages := totalImages + d.images;
      issues := issues + d.issues;
    }
    WholeSlice(slides);
    stats := Stats(withTitles, withContent, totalTextLength, totalImages, issues);
  }

  // ---------------------------------------------------------------------------------------
  // Score and grade

  /** The score before clamping. The float thresholds `count * 0.8`, `count * 0.9` and
      `count * 0.3` are compared as the exact fractions they stand for. */
  function RawScore(n: nat, s: Stats): int
  {
    100
    - (if 5 * s.titled < 4 * n then 20 else 0)
    - (if 10 * s.withContent < 9 * n then 15 else 0)
    - (if s.textLength < 100 then 25 else 0)
    - (if 10 * |s.issues| > 3 * n then 20 else 0)
    - (if s.images == 0 && n > 3 then 10 else 0)
    + (if s.titled == n then 5 else 0)
    + (if s.images > 0 then 5 else 0)
  }

  /** `max(0, min(100, x))`. */
  function Clamp(x: int): (r: int)
    ensures 0 <= r <= 100
    ensures 0 <= x <= 100 ==> r == x
  {
    if x < 0 then 0 else if x > 100 then 100 else x
  }

  /** Whether any of the five penalties applies. */
  predicate Penalized(n: nat, s: Stats)
  {
    5 * s.titled < 4 * n || 10 * s.withContent < 9 * n || s.textLength < 100
    || 10 * |s.issues| > 3 * n || (s.images == 0 && n > 3)
  }

  /** The score, updated step by step as the code does, then clamped. */
  method QualityScore(n: nat, s: Stats) returns (score: int)
    ensures score == Clamp(RawScore(n, s))
  {
    score := 100;
    if 5 * s.titled < 4 * n {
      score := score - 20;
    }
    if 10 * s.withContent < 9 * n {
      score := score - 15;
    }
    if s.textLength < 100 {
      score := score - 25;
    }
    if 10 * |s.issues| > 3 * n {
      score := score - 20;
    }
    if s.images == 0 && n > 3 {
      score := score - 10;
    }
    if s.titled == n {
      score := score + 5;
    }
    if s.images > 0 {
      score := score + 5;
    }
    score := if score < 0 then 0 else if score > 100 then 100 else score;
  }

  /** All penalties together take 90 points, so the score never falls below 10 and the lower
      bound of the clamp never binds. */
  lemma ScoreRange(n: nat, s: Stats)
    ensures 10 <= RawScore(n, s) <= 110
    ensures 10 <= Clamp(RawScore(n, s)) <= 100
  {
  }

  /** On a non-empty presentation whose title count does not exceed the slide count, the score
      is 100 exactly when no penalty applies: every penalty outweighs both bonuses that can
      still be earned alongside it. */
  lemma PerfectScore(n: nat, s: Stats)
    requires n > 0 && s.titled <= n
    ensures Clamp(RawScore(n, s)) == 100 <==> !Penalized(n, s)
  {
  }

  datatype Grade = Excellent | Good | Satisfactory | Poor

  /** The grade bands of the final score. */
  function GradeOf(score: int): (g: Grade)
    ensures g == Excellent <==> score >= 80
    ensures g == Good <==> 60 <= score < 80
    ensures g == Satisfactory <==> 40 <= score < 60
    ensures g == Poor <==> score < 40
  {
    if score >= 80 then Excellent else if score >= 60 then Good else if score >= 40 then Satisfactory else Poor
  }

  function Rank(g: Grade): nat
  {
    match g
    case Poor => 0
    case Satisfactory => 1
    case Good => 2
    case Excellent => 3
  }

  /** A higher score never gets a lower grade. */
  lemma GradeMonotone(s: int, t: int)
    requires s <= t
    ensures Rank(GradeOf(s)) <= Rank(GradeOf(t))
  {
  }

  // ---------------------------------------------------------------------------------------
  // The whole analysis

  /** The statistics, score and grade of a presentation. */
  datatype Report = Report(stats: Stats, score: int, grade: Grade)

  /** The division by the slide count in the statistics raises on an empty presentation; the
      handler reports the error and no score is computed. */
  datatype AnalysisError = NoSlides

  method AnalyzePresentation(slides: seq<SlideInfo>) returns (r: Result<Report, AnalysisError>)
    ensures slides == [] <==> r.Err?
    ensures r.Ok? ==> r.value.stats == Summary(slides)
                      && r.value.score == Clamp(RawScore(|slides|, Summary(slides)))
                      && r.value.grade == GradeOf(r.value.score)
  {
    var stats := AnalyzeSlides(slides);
    var count := |slides|;
    if count == 0 {
      return Err(NoSlides);
    }
    var score := QualityScore(count, stats);
    r := Ok(Report(stats, score, GradeOf(score)));
  }

  /** The score of a non-empty presentation is 100 exactly when none of its slides misses
      enough to trigger a penalty; in particular its stats respect the slide count. */
  lemma AnalysisPerfect(slides: seq<SlideInfo>)
    requires slides != []
    ensures Clamp(RawScore(|slides|, Summary(slides))) == 100 <==> !Penalized(|slides|, Summary(slides))
  {
    SummaryBounds(slides);
    PerfectScore(|slides|, Summary(slides));
  }
}
