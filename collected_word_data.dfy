/** `datacollection/CollectedWordData`: the records of a data-collection session. Identifiers and
    timestamps are supplied by the caller. */
module CollectedWordData {
  import opened Wrappers
  import opened WordModel

  /** One recognised word with the user's correction (`None` when the word needs none) and their
      strangeness mark. */
  datatype CollectedWordData = CollectedWordData(
    originalWord: string,
    correctedWord: Option<string>,
    isMarkedStrange: bool,
    bounds: Option<Rect>,
    posTag: Option<string>,
    timestamp: int)

  /** A saved session: its identifier, time, words and the corrected full text. */
  datatype CollectionSession = CollectionSession(
    id: string,
    timestamp: int,
    words: seq<CollectedWordData>,
    fullText: string)

  /** `correctedWord ?: originalWord`: the word as the user settled it. */
  function SettledWord(d: CollectedWordData): (r: string)
    ensures d.correctedWord.None? ==> r == d.originalWord
    ensures d.correctedWord.Some? ==> r == d.correctedWord.value
  {
    d.correctedWord.GetOr(d.originalWord)
  }

  predicate IsMarked(d: CollectedWordData) {
    d.isMarkedStrange
  }
}
