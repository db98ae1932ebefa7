/** The slide records the parsers produce and the deck builder consumes. A slide's block list
    holds both kinds of block, so the two record types are joined in one sum type `Block`. */
module Models {
  import opened Wrappers

  /** An image to place on a slide: its source path and an alternative text, `""` by default. */
  datatype ImageBlock = ImageBlock(src: string, alt: string := "")

  /** A paragraph (`text`) or a bullet list (`bullets`, absent by default). */
  datatype TextBlock = TextBlock(text: string, bullets: Option<seq<string>> := None)

  datatype Block = TextItem(textBlock: TextBlock) | ImageItem(imageBlock: ImageBlock)

  /** A slide: an optional title, the ordered blocks, and speaker notes, absent by default. */
  datatype SlideModel = SlideModel(title: Option<string>, blocks: seq<Block>, notes: Option<string> := None)

  predicate IsBulletBlock(b: Block)
  {
    b.TextItem? && b.textBlock.bullets.Some?
  }

  predicate IsParagraphBlock(b: Block)
  {
    b.TextItem? && b.textBlock.bullets.None?
  }

  /** The two modes of a text block exclude each other: a bullet block has empty `text` and a
      non-empty list, a paragraph block has non-empty `text` and no list. */
  predicate WellFormedBlock(b: Block)
  {
    match b
    case TextItem(t) =>
      (match t.bullets
       case Some(items) => t.text == "" && items != []
       case None => t.text != "")
    case ImageItem(_) => true
  }
}
