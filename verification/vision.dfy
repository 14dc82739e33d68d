/**
 * The shapes of the text-recognition results the presenter consumes. Only
 * the parts the presenter reads are kept: texts, nesting, and the optional
 * bounding box, whose geometry the presenter never inspects.
 */
module Vision {
  import opened Wrappers

  /** An image-space rectangle, passed through untouched. */
  datatype Rect = Rect(left: int, top: int, right: int, bottom: int)

  // On-device result: blocks of lines of elements.
  datatype Element = Element(text: string, boundingBox: Option<Rect>)
  datatype Line = Line(elements: seq<Element>)
  datatype Block = Block(lines: seq<Line>)
  datatype Text = Text(blocks: seq<Block>)

  // Cloud result: pages of blocks of paragraphs of words of symbols.
  datatype Symbol = Symbol(text: string)
  datatype Word = Word(symbols: seq<Symbol>, boundingBox: Option<Rect>)
  datatype Paragraph = Paragraph(words: seq<Word>)
  datatype CloudBlock = CloudBlock(paragraphs: seq<Paragraph>)
  datatype Page = Page(blocks: seq<CloudBlock>)
  datatype CloudText = CloudText(pages: seq<Page>)

  /** How a detector request completes: its success listener with a result, or its failure listener. */
  datatype Detection<+T> = Detected(result: T) | DetectionFailed
}
