/** The records the recognition pipeline passes around: what the OCR engine and the tagger
    deliver, and the `Word` the pipeline builds from them. */
module WordModel {
  import opened Wrappers

  /** `android.graphics.Rect`: integer pixel edges in image space. */
  datatype Rect = Rect(left: int, top: int, right: int, bottom: int)

  /** ML Kit's `Text.Element`: a recognised fragment; its bounding box may be absent. */
  datatype Element = Element(text: string, boundingBox: Option<Rect>)

  /** ML Kit's `Text.Line`. */
  datatype Line = Line(elements: seq<Element>)

  /** ML Kit's `Text.TextBlock`. */
  datatype Block = Block(lines: seq<Line>)

  /** ML Kit's `Text`: the full recognised text and its block / line / element tree. */
  datatype Text = Text(text: string, textBlocks: seq<Block>)

  /** A CoreNLP token: `token.word()` and its part-of-speech `token.tag()`. */
  datatype Token = Token(word: string, tag: string)

  /** The pipeline's word record, with the fields `WordProcessor` fills in. */
  datatype Word = Word(
    word: string,
    spellcheckedWord: Option<string>,
    posTag: string,
    bounds: Option<Rect>,
    isSpelledCorrectly: bool,
    suggestions: seq<string>)

  /** All elements of a block's lines, in line order. */
  function LineElements(lines: seq<Line>): seq<Element>
    decreases |lines|
  {
    if lines == [] then [] else LineElements(lines[..|lines| - 1]) + lines[|lines| - 1].elements
  }

  /** All elements of the result, in block / line / element order. */
  function AllElements(blocks: seq<Block>): seq<Element>
    decreases |blocks|
  {
    if blocks == [] then [] else AllElements(blocks[..|blocks| - 1]) + LineElements(blocks[|blocks| - 1].lines)
  }
}
