/** `parse_markdown` of the improved parser: every segment becomes one slide, titled from its
    first lines, else from the first heading of its tree, else automatically, with a bullet block,
    the paragraphs and the images that resolve. */
module ImprovedParser {
  import opened Wrappers
  import opened Text
  import opened Cleaning
  import opened Segmenter
  import opened TitleExtraction
  import opened Soup
  import opened Models

  // ---------------------------------------------------------------------------------------
  // Images

  /** The network and file-system effects of image handling. `download(url, suffix)` fetches
      the image into a new temporary file with that suffix and gives the file's path, or fails;
      `fileExists(path)` tells whether a local file exists. */
  datatype ImageResolver = ImageResolver(download: (string, string) -> Option<string>, fileExists: string -> bool)

  /** A source fetched over the network. */
  predicate IsRemote(src: string)
  {
    StartsWith(src, "http://") || StartsWith(src, "https://")
  }

  /** A path component that `PurePosixPath` drops: empty (from a repeated or final `/`) or
      `.`. */
  predicate Skipped(c: string)
  {
    c == "" || c == "."
  }

  /** Every one of `parts` is dropped. */
  predicate AllSkipped(parts: seq<string>)
  {
    forall j :: 0 <= j < |parts| ==> Skipped(parts[j])
  }

  /** The last of `parts` that is neither empty nor `.`, if any. */
  function LastComponent(parts: seq<string>): (r: string)
    ensures r != "."
    ensures r == "" <==> AllSkipped(parts)
    ensures r != "" ==> exists k :: 0 <= k < |parts| && parts[k] == r
                                    && forall j :: k < j < |parts| ==> Skipped(parts[j])
    decreases |parts|
  {
    if parts == [] then ""
    else
      var last := parts[|parts| - 1];
      if Skipped(last) then
        var r := LastComponent(parts[..|parts| - 1]);
        LastComponentOfPrefix(parts, r);
        r
      else last
  }

  lemma LastComponentOfPrefix(parts: seq<string>, r: string)
    requires parts != [] && Skipped(parts[|parts| - 1])
    requires var pre := parts[..|parts| - 1];
             (r == "" <==> AllSkipped(pre))
             && (r != "" ==> exists k :: 0 <= k < |pre| && pre[k] == r
                                         && forall j :: k < j < |pre| ==> Skipped(pre[j]))
    ensures r == "" <==> AllSkipped(parts)
    ensures r != "" ==> exists k :: 0 <= k < |parts| && parts[k] == r
                                    && forall j :: k < j < |parts| ==> Skipped(parts[j])
  {
    var pre := parts[..|parts| - 1];
    assert forall j :: 0 <= j < |pre| ==> pre[j] == parts[j];
    if r != "" {
      var k :| 0 <= k < |pre| && pre[k] == r && forall j :: k < j < |pre| ==> Skipped(pre[j]);
      assert parts[k] == r;
    }
  }

  /** `PurePosixPath(p).name`: the final component, separators and `.` components dropped. */
  function PathName(p: string): (r: string)
    ensures '/' !in r && r != "."
  {
    var parts := Split(p, '/');
    var r := LastComponent(parts);
    assert r != "" ==> '/' !in r by {
      if r != "" {
        var k :| 0 <= k < |parts| && parts[k] == r;
      }
    }
    r
  }

  /** A path has an empty name exactly when every one of its components is dropped. */
  lemma PathNameEmpty(p: string)
    ensures PathName(p) == "" <==> AllSkipped(Split(p, '/'))
  {
  }

  /** The name of a path is the part after its last `/`, when that part is a component that is
      kept. */
  lemma PathNameOfChild(d: string, n: string)
    requires '/' !in n && !Skipped(n)
    ensures PathName(d + "/" + n) == n
  {
    SplitLastPiece(d, '/', n);
  }

  /** A path without `/` is its own name, unless it is empty or `.`. */
  lemma PathNameOfName(n: string)
    requires '/' !in n && !Skipped(n)
    ensures PathName(n) == n
  {
    SplitNoSep(n, [], '/');
    assert n + [] == n;
  }

  /** `PurePosixPath(p).suffix` on the name: from its last `.` on, unless that dot opens the name
      or ends it. */
  function Suffix(name: string): (r: string)
    ensures r != "" ==> 2 <= |r| < |name| && r[0] == '.' && EndsWith(name, r) && '.' !in r[1..]
    ensures r == "" <==> LastIndex(name, '.').None? || LastIndex(name, '.').value == 0
                         || LastIndex(name, '.').value == |name| - 1
  {
    match LastIndex(name, '.')
    case Some(i) => if 0 < i < |name| - 1 then name[i..] else ""
    case None => ""
  }

  /** `Path(src).suffix or ".img"`: the suffix of the temporary file a download goes to. */
  function TempSuffix(src: string): (r: string)
    ensures |r| >= 2 && r[0] == '.'
    ensures Suffix(PathName(src)) != "" ==> r == Suffix(PathName(src))
  {
    var s := Suffix(PathName(src));
    if s != "" then s else ".img"
  }

  /** Without a suffix on the name, the temporary file gets `.img`. */
  lemma TempSuffixFallback(src: string)
    ensures Suffix(PathName(src)) == "" ==> TempSuffix(src) == ".img"
  {
  }

  /** A source whose name is `base.ext` downloads to a file ending in `.ext`. */
  lemma TempSuffixOfFile(d: string, base: string, ext: string)
    requires base != [] && ext != [] && '/' !in base && '/' !in ext && '.' !in ext
    ensures TempSuffix(d + "/" + base + "." + ext) == "." + ext
  {
    var n := base + "." + ext;
    assert '/' !in n by {
      assert forall i :: 0 <= i < |n| ==> n[i] in base || n[i] == '.' || n[i] in ext;
    }
    assert d + "/" + base + "." + ext == d + "/" + n;
    PathNameOfChild(d, n);
    SuffixOfName(base, ext);
  }

  /** A source whose name holds no `.` downloads to a file ending in `.img`. */
  lemma TempSuffixOfPlainName(d: string, n: string)
    requires '/' !in n && '.' !in n && !Skipped(n)
    ensures TempSuffix(d + "/" + n) == ".img"
  {
    PathNameOfChild(d, n);
  }

  lemma SuffixOfName(base: string, ext: string)
    requires base != [] && ext != [] && '.' !in ext
    ensures Suffix(base + "." + ext) == "." + ext
  {
    var n := base + "." + ext;
    var k := |base|;
    assert n[k] == '.';
    assert n[k..] == "." + ext;
  }

  /** The block an image node yields, if any: `src` and `alt` default to `""`; a remote source
      yields a block exactly when its download succeeds, with the downloaded file as source; any
      other source yields a block exactly when the file exists, with the source unchanged. */
  function ResolveImage(src: Option<string>, alt: Option<string>, io: ImageResolver): (r: Option<ImageBlock>)
    ensures r.Some? ==> r.value.alt == alt.GetOr("")
    ensures IsRemote(src.GetOr("")) ==>
              r == match io.download(src.GetOr(""), TempSuffix(src.GetOr("")))
                   case Some(path) => Some(ImageBlock(path, alt.GetOr("")))
                   case None => None
    ensures !IsRemote(src.GetOr("")) ==>
              (r.Some? <==> io.fileExists(src.GetOr(""))) && (r.Some? ==> r.value.src == src.GetOr(""))
  {
    var s := src.GetOr("");
    var a := alt.GetOr("");
    if IsRemote(s) then
      match io.download(s, TempSuffix(s))
      case Some(path) => Some(ImageBlock(path, a))
      case None => None
    else if io.fileExists(s) then Some(ImageBlock(s, a))
    else None
  }

  // ---------------------------------------------------------------------------------------
  // Blocks, as functions of the tree: each is a left-to-right accumulation over the nodes

  /** What one node contributes to the bullets: its cleaned text, when it is a list item whose
      cleaned text is not empty. */
  function BulletOf(n: Node): seq<string>
  {
    if n.Li? && CleanText(n.text) != "" then [CleanText(n.text)] else []
  }

  /** What one node contributes to the paragraph blocks: a block with its cleaned text, when it is
      a paragraph whose cleaned text is not empty. */
  function ParagraphOf(n: Node): seq<Block>
  {
    if n.P? && CleanText(n.text) != "" then [TextItem(TextBlock(CleanText(n.text)))] else []
  }

  /** What one node contributes to the image blocks: a block, when it is an image that
      resolves. */
  function ImageOf(io: ImageResolver): Node -> seq<Block>
  {
    (n: Node) => if n.Img? && ResolveImage(n.src, n.alt, io).Some? then [ImageItem(ResolveImage(n.src, n.alt, io).value)]
         else []
  }

  function Bullets(nodes: seq<Node>): seq<string>
  {
    Collect(nodes, BulletOf)
  }

  function ParagraphBlocks(nodes: seq<Node>): seq<Block>
  {
    Collect(nodes, ParagraphOf)
  }

  function ImageBlocks(nodes: seq<Node>, io: ImageResolver): seq<Block>
  {
    Collect(nodes, ImageOf(io))
  }

  /** The bullet block, present when there is at least one bullet. */
  function BulletBlock(bullets: seq<string>): (r: seq<Block>)
    ensures |r| <= 1 && (r != [] <==> bullets != [])
    ensures r != [] ==> r[0] == TextItem(TextBlock("", Some(bullets)))
    ensures forall b :: b in r ==> IsBulletBlock(b) && WellFormedBlock(b)
  {
    if bullets != [] then [TextItem(TextBlock("", Some(bullets)))] else []
  }

  /** The blocks of a slide: the bullet block, then the paragraphs, then the images. */
  function Blocks(nodes: seq<Node>, io: ImageResolver): seq<Block>
  {
    BulletBlock(Bullets(nodes)) + ParagraphBlocks(nodes) + ImageBlocks(nodes, io)
  }

  // ---------------------------------------------------------------------------------------
  // Titles and slides

  /** `f"Слайд {i + 1}"`: the automatic title of the slide at position `i`. */
  function FallbackTitle(i: nat): (r: string)
    ensures StartsWith(r, SlideWord + " ") && r[|SlideWord| + 1..] == NatToString(i + 1)
    ensures Normalized(r)
  {
    var r := SlideWord + " " + NatToString(i + 1);
    ConcatParts(SlideWord + " ", NatToString(i + 1));
    SlideWordUnspaced();
    var d := NatToString(i + 1);
    assert forall j :: 0 <= j < |d| ==> !IsSpace(d[j]) by {
      assert forall j :: 0 <= j < |d| ==> IsDigit(d[j]);
    }
    TwoWordsNormalized(SlideWord, d);
    r
  }

  lemma SlideWordUnspaced()
    ensures SlideWord != [] && forall j :: 0 <= j < |SlideWord| ==> !IsSpace(SlideWord[j])
  {
    assert ' ' !in SlideWord && '\t' !in SlideWord && '\n' !in SlideWord;
    assert '\r' !in SlideWord && '\U{B}' !in SlideWord && '\U{C}' !in SlideWord;
    forall j | 0 <= j < |SlideWord|
      ensures !IsSpace(SlideWord[j])
    {
      assert SlideWord[j] in SlideWord;
    }
  }

  /** The title of the slide at position `i` and the tree its blocks are read from. A non-empty
      title from the first lines wins and leaves the tree alone; otherwise the first `h1`, `h2`,
      `h3` or `strong` element gives the cleaned title and is removed from the tree, whatever its
      text; a title still empty becomes the automatic one. */
  function SlideTitle(i: nat, extracted: Option<string>, nodes: seq<Node>): (r: (string, seq<Node>))
    ensures r.0 != ""
  {
    if extracted.Some? && extracted.value != "" then (extracted.value, nodes)
    else
      match Find(nodes, true)
      case None => (FallbackTitle(i), nodes)
      case Some(k) =>
        var t := CleanTitle(nodes[k].text);
        (if t != "" then t else FallbackTitle(i), Remove(nodes, k))
  }

  /** The slide made from the segment `part` at position `i`. */
  function BuildSlide(i: nat, part: string, render: Renderer, io: ImageResolver): (r: SlideModel)
    ensures r.title.Some? && r.title.value != "" && r.notes.None?
  {
    var e := ExtractTitle(part);
    var t := SlideTitle(i, e.0, render(e.1));
    SlideModel(Some(t.0), Blocks(t.1, io))
  }

  // ---------------------------------------------------------------------------------------
  // The parsing loops

  /** The list-item loop. */
  method CollectBullets(nodes: seq<Node>) returns (bullets: seq<string>)
    ensures bullets == Bullets(nodes)
  {
    bullets := [];
    for i := 0 to |nodes|
      invariant bullets == Bullets(nodes[..i])
    {
      CollectSnoc(nodes, i, BulletOf);
      if nodes[i].Li? {
        var t := CleanText(nodes[i].text);
        if t != "" {
          bullets := bullets + [t];
        }
      }
    }
    WholeSlice(nodes);
  }

  /** The paragraph loop, appending to the blocks built so far. */
  method AppendParagraphs(blocks: seq<Block>, nodes: seq<Node>) returns (r: seq<Block>)
    ensures r == blocks + ParagraphBlocks(nodes)
  {
    r := blocks;
    for i := 0 to |nodes|
      invariant r == blocks + ParagraphBlocks(nodes[..i])
    {
      CollectSnoc(nodes, i, ParagraphOf);
      AppendAssoc(blocks, ParagraphBlocks(nodes[..i]), ParagraphOf(nodes[i]));
      if nodes[i].P? {
        var t := CleanText(nodes[i].text);
        if t != "" {
          r := r + [TextItem(TextBlock(t))];
        }
      }
    }
    WholeSlice(nodes);
  }

  /** The image loop, appending to the blocks built so far; an image that does not resolve is
      skipped. */
  method AppendImages(blocks: seq<Block>, nodes: seq<Node>, io: ImageResolver) returns (r: seq<Block>)
    ensures r == blocks + ImageBlocks(nodes, io)
  {
    r := blocks;
    for i := 0 to |nodes|
      invariant r == blocks + ImageBlocks(nodes[..i], io)
    {
      CollectSnoc(nodes, i, ImageOf(io));
      AppendAssoc(blocks, ImageBlocks(nodes[..i], io), ImageOf(io)(nodes[i]));
      if nodes[i].Img? {
        var src := nodes[i].src.GetOr("");
        var alt := nodes[i].alt.GetOr("");
        if IsRemote(src) {
          var path := io.download(src, TempSuffix(src));
          if path.None? {
            continue;
          }
          src := path.value;
        } else if !io.fileExists(src) {
          continue;
        }
        r := r + [ImageItem(ImageBlock(src, alt))];
      }
    }
    WholeSlice(nodes);
  }

  /** The title choice: the title from the first lines when it is not empty, else the first
      heading element of the tree, cleaned and removed, else the automatic title. */
  method ChooseTitle(i: nat, extracted: Option<string>, tree: seq<Node>) returns (title: string, nodes: seq<Node>)
    ensures (title, nodes) == SlideTitle(i, extracted, tree)
  {
    var found: Option<string> := extracted;
    nodes := tree;
    if found.None? || found.value == "" {
      var k := Find(nodes, true);
      if k.Some? {
        found := Some(CleanTitle(nodes[k.value].text));
        nodes := Remove(nodes, k.value);
      }
    }
    if found.None? || found.value == "" {
      title := FallbackTitle(i);
    } else {
      title := found.value;
    }
  }

  /** The blocks of a slide, in the order of the three loops. */
  method CollectBlocks(nodes: seq<Node>, io: ImageResolver) returns (blocks: seq<Block>)
    ensures blocks == Blocks(nodes, io)
  {
    var bullets := CollectBullets(nodes);
    blocks := [];
    if bullets != [] {
      blocks := blocks + [TextItem(TextBlock("", Some(bullets)))];
    }
    assert blocks == BulletBlock(Bullets(nodes));
    blocks := AppendParagraphs(blocks, nodes);
    blocks := AppendImages(blocks, nodes, io);
  }

  /** The body of the slide loop: the slide made from the segment `part` at position `i`. */
  method ParseSlide(i: nat, part: string, render: Renderer, io: ImageResolver) returns (slide: SlideModel)
    ensures slide == BuildSlide(i, part, render, io)
  {
    var extracted, content := ExtractTitleFromContent(part);
    var title, nodes := ChooseTitle(i, extracted, render(content));
    var blocks := CollectBlocks(nodes, io);
    slide := SlideModel(Some(title), blocks);
  }

  /** The slide loop's body as a function of the position and the segment. */
  function SlideBuilder(render: Renderer, io: ImageResolver): (nat, string) -> SlideModel
  {
    (k: nat, part: string) => BuildSlide(k, part, render, io)
  }

  /** What `parse_markdown` returns: one slide per segment, in order. */
  function Parse(text: string, render: Renderer, io: ImageResolver): seq<SlideModel>
  {
    MapNumbered(Segments(text), SlideBuilder(render, io))
  }

  /** `parse_markdown`. */
  method ParseMarkdown(text: string, render: Renderer, io: ImageResolver) returns (slides: seq<SlideModel>)
    ensures slides == Parse(text, render, io)
  {
    var parts := Segments(text);
    var build := SlideBuilder(render, io);
    slides := [];
    for i := 0 to |parts|
      invariant slides == MapNumbered(parts[..i], build)
    {
      MapNumberedSnoc(parts, i, build);
      var slide := ParseSlide(i, parts[i], render, io);
      slides := slides + [slide];
    }
    WholeSlice(parts);
  }

  /** One slide per segment, the slide at position `k` made from the segment at position `k`. */
  lemma ParseSlides(text: string, render: Renderer, io: ImageResolver)
    ensures |Parse(text, render, io)| == |Segments(text)|
    ensures forall k :: 0 <= k < |Segments(text)| ==> Parse(text, render, io)[k] == BuildSlide(k, Segments(text)[k], render, io)
  {
    MapNumberedAt(Segments(text), SlideBuilder(render, io));
  }

  /** `f` applied to each segment and its position. */
  function MapNumbered<T>(parts: seq<string>, f: (nat, string) -> T): seq<T>
    decreases |parts|
  {
    if parts == [] then [] else MapNumbered(parts[..|parts| - 1], f) + [f(|parts| - 1, parts[|parts| - 1])]
  }

  lemma MapNumberedSnoc<T>(parts: seq<string>, i: nat, f: (nat, string) -> T)
    requires i < |parts|
    ensures MapNumbered(parts[..i + 1], f) == MapNumbered(parts[..i], f) + [f(i, parts[i])]
  {
    assert parts[..i + 1][..i] == parts[..i];
  }

  lemma {:induction false} MapNumberedAt<T>(parts: seq<string>, f: (nat, string) -> T)
    ensures |MapNumbered(parts, f)| == |parts|
    ensures forall k :: 0 <= k < |parts| ==> MapNumbered(parts, f)[k] == f(k, parts[k])
    decreases |parts|
  {
    if parts != [] {
      var n := |parts| - 1;
      MapNumberedAt(parts[..n], f);
      forall k | 0 <= k < |parts|
        ensures MapNumbered(parts, f)[k] == f(k, parts[k])
      {
        if k < n {
          assert parts[..n][k] == parts[k];
        }
      }
    }
  }

  // ---------------------------------------------------------------------------------------
  // Properties

  /** The bullets are exactly the cleaned texts of the list items that do not clean to
      nothing. */
  lemma BulletsAre(nodes: seq<Node>, t: string)
    ensures t in Bullets(nodes) <==> exists j :: 0 <= j < |nodes| && nodes[j].Li? && CleanText(nodes[j].text) == t != ""
  {
    CollectMember(nodes, BulletOf, t);
    forall j | 0 <= j < |nodes|
      ensures t in BulletOf(nodes[j]) <==> nodes[j].Li? && CleanText(nodes[j].text) == t != ""
    {
      BulletOfIs(nodes[j], t);
    }
  }

  lemma BulletOfIs(n: Node, t: string)
    ensures t in BulletOf(n) <==> n.Li? && CleanText(n.text) == t != ""
  {
  }

  /** Every bullet is non-empty and in whitespace normal form. */
  lemma BulletsAreClean(nodes: seq<Node>)
    ensures forall t :: t in Bullets(nodes) ==> t != "" && Normalized(t)
  {
    forall t | t in Bullets(nodes)
      ensures t != "" && Normalized(t)
    {
      BulletsAre(nodes, t);
    }
  }

  /** A paragraph block as the paragraph loop makes it: well-formed, with its text in
      whitespace normal form. */
  ghost predicate CleanParagraph(b: Block)
  {
    IsParagraphBlock(b) && WellFormedBlock(b) && Normalized(b.textBlock.text)
  }

  /** The paragraph blocks are exactly the blocks of the cleaned texts of the paragraphs that do
      not clean to nothing. */
  lemma ParagraphBlocksAre(nodes: seq<Node>, b: Block)
    ensures b in ParagraphBlocks(nodes)
        <==> exists j :: 0 <= j < |nodes| && nodes[j].P? && CleanText(nodes[j].text) != ""
                         && b == TextItem(TextBlock(CleanText(nodes[j].text)))
  {
    CollectMember(nodes, ParagraphOf, b);
  }

  /** Every paragraph block is a well-formed paragraph whose text is in whitespace normal
      form. */
  lemma ParagraphBlocksAreClean(nodes: seq<Node>)
    ensures forall b :: b in ParagraphBlocks(nodes) ==> CleanParagraph(b)
  {
    forall b | b in ParagraphBlocks(nodes)
      ensures CleanParagraph(b)
    {
      ParagraphBlocksAre(nodes, b);
    }
  }

  /** The image blocks are exactly the blocks that the images resolve to, one at most per image. */
  lemma ImageBlocksAre(nodes: seq<Node>, io: ImageResolver, b: Block)
    ensures b in ImageBlocks(nodes, io)
        <==> b.ImageItem? && exists j :: 0 <= j < |nodes| && nodes[j].Img?
                                        && ResolveImage(nodes[j].src, nodes[j].alt, io) == Some(b.imageBlock)
  {
    CollectMember(nodes, ImageOf(io), b);
  }

  /** Every image block is an image, and there are no more of them than nodes. */
  lemma ImageBlocksAreImages(nodes: seq<Node>, io: ImageResolver)
    ensures |ImageBlocks(nodes, io)| <= |nodes|
    ensures forall b :: b in ImageBlocks(nodes, io) ==> b.ImageItem?
  {
    CollectLength(nodes, ImageOf(io));
    forall b | b in ImageBlocks(nodes, io)
      ensures b.ImageItem?
    {
      ImageBlocksAre(nodes, io, b);
    }
  }

  /** The layout of a slide: every block is well-formed; the first block is the bullet block
      exactly when there are bullets, and no other block is one; the paragraphs come next and the
      images last. */
  lemma BlocksLayout(nodes: seq<Node>, io: ImageResolver)
    ensures var r := Blocks(nodes, io);
            var nb := |BulletBlock(Bullets(nodes))|;
            var np := |ParagraphBlocks(nodes)|;
            (forall k :: 0 <= k < |r| ==> WellFormedBlock(r[k]))
            && ((r != [] && IsBulletBlock(r[0])) <==> Bullets(nodes) != [])
            && (forall k :: 0 < k < |r| ==> !IsBulletBlock(r[k]))
            && (forall k :: nb <= k < nb + np ==> IsParagraphBlock(r[k]))
            && (forall k :: nb + np <= k < |r| ==> r[k].ImageItem?)
            && |r| == nb + np + |ImageBlocks(nodes, io)|
            && (nb == 1 ==> r[0] == TextItem(TextBlock("", Some(Bullets(nodes)))))
            && r[nb..nb + np] == ParagraphBlocks(nodes)
            && r[nb + np..] == ImageBlocks(nodes, io)
  {
    ParagraphBlocksAreClean(nodes);
    ImageBlocksAreImages(nodes, io);
    LayoutOfParts(BulletBlock(Bullets(nodes)), ParagraphBlocks(nodes), ImageBlocks(nodes, io));
  }

  lemma LayoutOfParts(bb: seq<Block>, pb: seq<Block>, ib: seq<Block>)
    requires |bb| <= 1 && forall b :: b in bb ==> IsBulletBlock(b) && WellFormedBlock(b)
    requires forall b :: b in pb ==> CleanParagraph(b)
    requires forall b :: b in ib ==> b.ImageItem?
    ensures var r := bb + pb + ib;
            (forall k :: 0 <= k < |r| ==> WellFormedBlock(r[k]))
            && ((r != [] && IsBulletBlock(r[0])) <==> bb != [])
            && (forall k :: 0 < k < |r| ==> !IsBulletBlock(r[k]))
            && (forall k :: |bb| <= k < |bb| + |pb| ==> IsParagraphBlock(r[k]))
            && (forall k :: |bb| + |pb| <= k < |r| ==> r[k].ImageItem?)
            && r[..|bb|] == bb && r[|bb|..|bb| + |pb|] == pb && r[|bb| + |pb|..] == ib
  {
    var r := bb + pb + ib;
    assert r[..|bb|] == bb && r[|bb|..|bb| + |pb|] == pb && r[|bb| + |pb|..] == ib;
    forall k | 0 <= k < |r|
      ensures WellFormedBlock(r[k]) && (k > 0 ==> !IsBulletBlock(r[k]))
      ensures |bb| <= k < |bb| + |pb| ==> IsParagraphBlock(r[k])
      ensures |bb| + |pb| <= k ==> r[k].ImageItem?
    {
      if k < |bb| {
        assert r[k] == bb[k] && bb[k] in bb;
      } else if k < |bb| + |pb| {
        assert r[k] == pb[k - |bb|] && pb[k - |bb|] in pb;
      } else {
        assert r[k] == ib[k - |bb| - |pb|] && ib[k - |bb| - |pb|] in ib;
      }
    }
    if r != [] && bb == [] {
      if pb != [] {
        assert r[0] == pb[0] && pb[0] in pb;
      } else {
        assert r[0] == ib[0] && ib[0] in ib;
      }
    }
  }

  /** Different slide positions get different automatic titles. */
  lemma FallbackTitlesDistinct(i: nat, j: nat)
    requires i != j
    ensures FallbackTitle(i) != FallbackTitle(j)
  {
    NatToStringInjective(i + 1, j + 1);
  }

  /** A non-empty title from the first lines is the slide title, and the tree of the remaining
      content is left whole: its first heading stays among the blocks' sources. */
  lemma TitleFromLines(i: nat, t: string, tree: seq<Node>)
    requires t != ""
    ensures SlideTitle(i, Some(t), tree) == (t, tree)
  {
  }

  /** A non-empty title from the first lines of a segment is its slide's title, and the blocks
      come from the whole tree of the rest of the segment. */
  lemma TitleFromFirstLines(i: nat, part: string, render: Renderer, io: ImageResolver)
    requires ExtractTitle(part).0.Some? && ExtractTitle(part).0.value != ""
    ensures BuildSlide(i, part, render, io).title == ExtractTitle(part).0
    ensures BuildSlide(i, part, render, io).blocks == Blocks(render(ExtractTitle(part).1), io)
  {
    TitleFromLines(i, ExtractTitle(part).0.value, render(ExtractTitle(part).1));
  }

  /** A segment that opens with `# Title` makes the slide titled `Title` whose blocks come from
      the lines after the heading. */
  lemma SlideFromHeading(i: nat, w: string, body: string, render: Renderer, io: ImageResolver)
    requires w != [] && Normalized(w) && w[0] != '*' && w[|w| - 1] != '*' && !StartsWith(w, SlideWord)
    requires body != [] && Trimmed(body)
    ensures BuildSlide(i, "# " + w + "\n" + body, render, io) == SlideModel(Some(w), Blocks(render(body), io))
  {
    ExtractTitleHeading(w, body);
    TitleFromFirstLines(i, "# " + w + "\n" + body, render, io);
  }

  /** Without a title from the first lines, the first heading element of the tree gives the
      cleaned title when that is not empty, and exactly that element is removed before the blocks
      are read: the elements before it stay, and all after it move down by one. */
  lemma TitleFromTree(i: nat, extracted: Option<string>, tree: seq<Node>, k: nat)
    requires extracted.None? || extracted.value == ""
    requires k < |tree| && InTagSet(tree[k], true)
    requires forall j :: 0 <= j < k ==> !InTagSet(tree[j], true)
    requires CleanTitle(tree[k].text) != ""
    ensures SlideTitle(i, extracted, tree).0 == CleanTitle(tree[k].text)
    ensures var rest := SlideTitle(i, extracted, tree).1;
            |rest| == |tree| - 1
            && (forall j :: 0 <= j < k ==> rest[j] == tree[j])
            && (forall j :: k <= j < |rest| ==> rest[j] == tree[j + 1])
  {
    FindFirst(tree, true, k);
    HeadingBranch(i, extracted, tree, k);
  }

  lemma HeadingBranch(i: nat, extracted: Option<string>, tree: seq<Node>, k: nat)
    requires extracted.None? || extracted.value == ""
    requires k < |tree| && Find(tree, true) == Some(k)
    ensures var t := CleanTitle(tree[k].text);
            SlideTitle(i, extracted, tree) == (if t != "" then t else FallbackTitle(i), Remove(tree, k))
  {
  }

  /** Without a title from the first lines or from a heading element, the slide gets the
      automatic title of its position, and its tree is read whole. */
  lemma TitleFallback(i: nat, extracted: Option<string>, tree: seq<Node>)
    requires extracted.None? || extracted.value == ""
    requires forall j :: 0 <= j < |tree| ==> !InTagSet(tree[j], true)
    ensures SlideTitle(i, extracted, tree) == (FallbackTitle(i), tree)
  {
    FindNone(tree, true);
  }

  /** A heading element whose text cleans to nothing is still removed, and the slide gets the
      automatic title. */
  lemma TitleFromEmptyHeading(i: nat, extracted: Option<string>, tree: seq<Node>, k: nat)
    requires extracted.None? || extracted.value == ""
    requires k < |tree| && InTagSet(tree[k], true)
    requires forall j :: 0 <= j < k ==> !InTagSet(tree[j], true)
    requires CleanTitle(tree[k].text) == ""
    ensures SlideTitle(i, extracted, tree) == (FallbackTitle(i), Remove(tree, k))
  {
    FindFirst(tree, true, k);
  }

  /** Whatever its source, a slide title is in whitespace normal form. */
  lemma SlideTitleShape(i: nat, part: string, render: Renderer, io: ImageResolver)
    ensures Normalized(BuildSlide(i, part, render, io).title.value)
  {
    var e := ExtractTitle(part);
    TitleShape(i, e.0, render(e.1));
  }

  lemma TitleShape(i: nat, extracted: Option<string>, tree: seq<Node>)
    requires extracted.Some? ==> Normalized(extracted.value)
    ensures Normalized(SlideTitle(i, extracted, tree).0)
  {
  }
}
