/** `parse_markdown` of the first parser: every segment becomes one slide, titled by the text of
    its first `h1`, `h2` or `strong` element, if any, with a bullet block of every list item, the
    non-empty paragraphs and every image; an image without a `src` attribute aborts the whole
    parse. Nothing is cleaned and nothing is removed from the tree. */
module Parser {
  import opened Wrappers
  import opened Text
  import opened Segmenter
  import opened Soup
  import opened Models

  /** `img["src"]` on an image without the attribute raises `KeyError`, which nothing catches. */
  datatype ParseError = MissingSrc

  /** What one node contributes to the bullets: the text of a list item, empty or not. */
  function ItemText(n: Node): seq<string>
  {
    if n.Li? then [n.text] else []
  }

  /** What one node contributes to the paragraph blocks: a paragraph with non-empty text. */
  function ParagraphOf(n: Node): seq<Block>
  {
    if n.P? && n.text != "" then [TextItem(TextBlock(n.text))] else []
  }

  /** What one node contributes to the image blocks: an image with a source, `alt` defaulting to
      `""`. */
  function ImageOf(n: Node): seq<Block>
  {
    if n.Img? && n.src.Some? then [ImageItem(ImageBlock(n.src.value, n.alt.GetOr("")))] else []
  }

  predicate LacksSrc(n: Node)
  {
    n.Img? && n.src.None?
  }

  /** The text of the first `h1`, `h2` or `strong` element; `h3` does not count. */
  function Title(nodes: seq<Node>): (r: Option<string>)
    ensures r.Some? <==> exists j :: 0 <= j < |nodes| && InTagSet(nodes[j], false)
  {
    match Find(nodes, false)
    case Some(k) => Some(nodes[k].text)
    case None => None
  }

  function Bullets(nodes: seq<Node>): seq<string>
  {
    Collect(nodes, ItemText)
  }

  /** The bullet block when there is at least one list item, then the paragraphs, then the
      images. */
  function Blocks(nodes: seq<Node>): seq<Block>
  {
    (if Bullets(nodes) != [] then [TextItem(TextBlock("", Some(Bullets(nodes))))] else [])
    + Collect(nodes, ParagraphOf) + Collect(nodes, ImageOf)
  }

  /** The slide made from one segment, or the error its images raise. */
  function SlideOf(part: string, render: Renderer): Result<SlideModel, ParseError>
  {
    var nodes := render(part);
    if FirstMatch(nodes, LacksSrc).Some? then Err(MissingSrc)
    else Ok(SlideModel(Title(nodes), Blocks(nodes)))
  }

  // ---------------------------------------------------------------------------------------
  // The parsing loops

  /** The paragraph loop, appending to the blocks built so far. */
  method AppendParagraphs(blocks: seq<Block>, nodes: seq<Node>) returns (r: seq<Block>)
    ensures r == blocks + Collect(nodes, ParagraphOf)
  {
    r := blocks;
    for i := 0 to |nodes|
      invariant r == blocks + Collect(nodes[..i], ParagraphOf)
    {
      CollectSnoc(nodes, i, ParagraphOf);
      AppendAssoc(blocks, Collect(nodes[..i], ParagraphOf), ParagraphOf(nodes[i]));
      if nodes[i].P? && nodes[i].text != "" {
        r := r + [TextItem(TextBlock(nodes[i].text))];
      }
    }
    WholeSlice(nodes);
  }

  /** The image loop, appending to the blocks built so far; it stops at the first image without
      a source. */
  method AppendImages(blocks: seq<Block>, nodes: seq<Node>) returns (r: Result<seq<Block>, ParseError>)
    ensures r.Ok? <==> forall j :: 0 <= j < |nodes| ==> !LacksSrc(nodes[j])
    ensures r.Ok? ==> r.value == blocks + Collect(nodes, ImageOf)
  {
    var acc := blocks;
    for i := 0 to |nodes|
      invariant acc == blocks + Collect(nodes[..i], ImageOf)
      invariant forall j :: 0 <= j < i ==> !LacksSrc(nodes[j])
    {
      CollectSnoc(nodes, i, ImageOf);
      AppendAssoc(blocks, Collect(nodes[..i], ImageOf), ImageOf(nodes[i]));
      if nodes[i].Img? {
        if nodes[i].src.None? {
          return Err(MissingSrc);
        }
        acc := acc + [ImageItem(ImageBlock(nodes[i].src.value, nodes[i].alt.GetOr("")))];
      }
    }
    WholeSlice(nodes);
    r := Ok(acc);
  }

  /** The body of the slide loop. */
  method ParseSlide(part: string, render: Renderer) returns (r: Result<SlideModel, ParseError>)
    ensures r == SlideOf(part, render)
  {
    var nodes := render(part);
    var found := Find(nodes, false);
    var title: Option<string> := None;
    if found.Some? {
      title := Some(nodes[found.value].text);
    }
    var blocks: seq<Block> := [];
    var bullets := Collect(nodes, ItemText);
    if bullets != [] {
      blocks := blocks + [TextItem(TextBlock("", Some(bullets)))];
    }
    assert title == Title(nodes);
    assert blocks == if Bullets(nodes) != [] then [TextItem(TextBlock("", Some(Bullets(nodes))))] else [];
    blocks := AppendParagraphs(blocks, nodes);
    var images := AppendImages(blocks, nodes);
    if images.Err? {
      assert exists j :: 0 <= j < |nodes| && LacksSrc(nodes[j]);
      assert SlideOf(part, render) == Err(MissingSrc);
      assert images.error == MissingSrc;
      return Err(images.error);
    }
    r := Ok(SlideModel(title, images.value));
  }

  /** The slide loop's body as a function of the segment. */
  function SlideParser(render: Renderer): string -> Result<SlideModel, ParseError>
  {
    part => SlideOf(part, render)
  }

  /** What `parse_markdown` returns: the slides of the segments, in order, or the error of the
      first segment whose images raise. */
  function Parse(text: string, render: Renderer): Result<seq<SlideModel>, ParseError>
  {
    Traverse(Segments(text), SlideParser(render))
  }

  /** `parse_markdown`. */
  method ParseMarkdown(text: string, render: Renderer) returns (r: Result<seq<SlideModel>, ParseError>)
    ensures r == Parse(text, render)
  {
    var parts := Segments(text);
    var parse := SlideParser(render);
    var slides: seq<SlideModel> := [];
    for i := 0 to |parts|
      invariant Traverse(parts[..i], parse) == Ok(slides)
    {
      var slide := ParseSlide(parts[i], render);
      assert slide == parse(parts[i]);
      TraverseSnoc(parts, i, parse);
      if slide.Err? {
        TraverseStops(parts, i + 1, parse);
        return Err(slide.error);
      }
      slides := slides + [slide.value];
    }
    WholeSlice(parts);
    r := Ok(slides);
  }

  // ---------------------------------------------------------------------------------------
  // Properties

  /** The parse succeeds exactly when every segment parses, giving one slide per segment in
      order; otherwise the error is that of the first segment that fails. */
  lemma ParseSlides(text: string, render: Renderer)
    ensures Parse(text, render).Ok? <==> forall k :: 0 <= k < |Segments(text)| ==> SlideOf(Segments(text)[k], render).Ok?
    ensures Parse(text, render).Ok? ==>
              |Parse(text, render).value| == |Segments(text)|
              && forall k :: 0 <= k < |Segments(text)| ==> Parse(text, render).value[k] == SlideOf(Segments(text)[k], render).value
    ensures Parse(text, render).Err? ==>
              exists k :: 0 <= k < |Segments(text)| && SlideOf(Segments(text)[k], render) == Err(Parse(text, render).error)
                          && forall j :: 0 <= j < k ==> SlideOf(Segments(text)[j], render).Ok?
  {
    TraverseAll(Segments(text), SlideParser(render));
  }

  /** Every list item gives a bullet, in order, even one whose text is empty. */
  lemma BulletsAre(nodes: seq<Node>, t: string)
    ensures t in Bullets(nodes) <==> exists j :: 0 <= j < |nodes| && nodes[j] == Li(t)
  {
    CollectMember(nodes, ItemText, t);
    if j :| 0 <= j < |nodes| && t in ItemText(nodes[j]) {
      assert nodes[j] == Li(t);
    }
    if j :| 0 <= j < |nodes| && nodes[j] == Li(t) {
      assert t in ItemText(nodes[j]);
    }
  }

  /** The title is the text of the first `h1`, `h2` or `strong` element, whatever stands
      before it. */
  lemma TitleIsFirstHeading(nodes: seq<Node>, k: nat)
    requires k < |nodes| && InTagSet(nodes[k], false)
    requires forall j :: 0 <= j < k ==> !InTagSet(nodes[j], false)
    ensures Title(nodes) == Some(nodes[k].text)
  {
    FindFirst(nodes, false, k);
  }

  /** An `h3` never titles a slide: a tree whose only headings are `h3` gives no title, while
      the improved parser takes the first of them. */
  lemma H3DoesNotTitle(nodes: seq<Node>)
    requires forall j :: 0 <= j < |nodes| ==> !(nodes[j].H1? || nodes[j].H2? || nodes[j].Strong?)
    ensures Title(nodes) == None
  {
  }

  /** The simple example: a heading and a paragraph give one slide, titled by the heading, with
      the paragraph as its only block. */
  lemma ParseSimple(render: Renderer)
    requires render("# Title\n\nContent") == [H1("Title"), P("Content")]
    ensures Segments("# Title\n\nContent") == ["# Title\n\nContent"]
    ensures SlideOf("# Title\n\nContent", render) == Ok(SlideModel(Some("Title"), [TextItem(TextBlock("Content"))]))
  {
    SingleSegment("# Title\n\nContent");
    SimpleTree(render("# Title\n\nContent"));
  }

  /** A text without a dash and without surrounding whitespace is one segment. */
  lemma SingleSegment(text: string)
    requires '-' !in text && text != [] && Trimmed(text)
    ensures Segments(text) == [text]
  {
    NoDashNoSeparator(text, true);
    StripTrimmed(text);
    NoSeparatorOneSegment(text);
  }

  lemma SimpleTree(nodes: seq<Node>)
    requires nodes == [H1("Title"), P("Content")]
    ensures Title(nodes) == Some("Title")
    ensures Blocks(nodes) == [TextItem(TextBlock("Content"))]
    ensures forall j :: 0 <= j < |nodes| ==> !LacksSrc(nodes[j])
  {
    assert Find(nodes, false) == Some(0);
    assert [H1("Title")] + [P("Content")] == nodes;
    CollectPush([H1("Title")], P("Content"), ItemText);
    CollectPush([], H1("Title"), ItemText);
    CollectPush([H1("Title")], P("Content"), ParagraphOf);
    CollectPush([], H1("Title"), ParagraphOf);
    CollectPush([H1("Title")], P("Content"), ImageOf);
    CollectPush([], H1("Title"), ImageOf);
  }
}
