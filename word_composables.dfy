/** `ui/composables/WordComposables`: the decisions of the words-and-definitions area: which
    header and body it shows, the word a selection is looked up and saved under, and what the
    definition card displays. Layout and styling are not modelled. */
module WordComposables {
  import opened Wrappers
  import opened WordModel
  import opened DictionaryApiClient

  /** `spellcheckedWord ?: word`: the spell checker's best suggestion when it has one. */
  function LookupWord(w: Word): (r: string)
    ensures w.spellcheckedWord.None? ==> r == w.word
    ensures w.spellcheckedWord.Some? ==> r == w.spellcheckedWord.value
  {
    w.spellcheckedWord.GetOr(w.word)
  }

  /** The header string chosen by the `when` chain. */
  datatype Header = CameraInstruction | WordDetails | TapWordInstruction | NoStrangeWords

  /** Camera activity wins, then a selection, then the presence of strange words. */
  function HeaderOf(isCameraActive: bool, selectedWord: Option<Word>, hasStrangeWords: bool): (h: Header)
    ensures h == CameraInstruction <==> isCameraActive
    ensures h == WordDetails <==> !isCameraActive && selectedWord.Some?
    ensures h == TapWordInstruction <==> !isCameraActive && selectedWord.None? && hasStrangeWords
    ensures h == NoStrangeWords <==> !isCameraActive && selectedWord.None? && !hasStrangeWords
  {
    if isCameraActive then CameraInstruction
    else if selectedWord.Some? then WordDetails
    else if hasStrangeWords then TapWordInstruction
    else NoStrangeWords
  }

  /** The body branch: guidance texts, or the definition card for the selected word, looked up
      under `LookupWord`. */
  datatype Body = CameraGuidance | DefinitionCard(word: string, selected: Word) | TapWordExplanation | NoStrangeWordsGuidance

  function BodyOf(isCameraActive: bool, selectedWord: Option<Word>, hasStrangeWords: bool): (b: Body)
    ensures b.DefinitionCard? ==> selectedWord.Some? && b.selected == selectedWord.value && b.word == LookupWord(selectedWord.value)
  {
    if isCameraActive then CameraGuidance
    else if selectedWord.Some? then DefinitionCard(LookupWord(selectedWord.value), selectedWord.value)
    else if hasStrangeWords then TapWordExplanation
    else NoStrangeWordsGuidance
  }

  /** The body follows the header's priority: each header comes with its own body. */
  lemma BodyFollowsHeader(isCameraActive: bool, selectedWord: Option<Word>, hasStrangeWords: bool)
    ensures var h := HeaderOf(isCameraActive, selectedWord, hasStrangeWords);
      var b := BodyOf(isCameraActive, selectedWord, hasStrangeWords);
      (h == CameraInstruction <==> b == CameraGuidance) &&
      (h == WordDetails <==> b.DefinitionCard?) &&
      (h == TapWordInstruction <==> b == TapWordExplanation) &&
      (h == NoStrangeWords <==> b == NoStrangeWordsGuidance)
  {
  }

  /** The card's title, `selectedWord?.spellcheckedWord ?: word`. */
  function CardTitle(word: string, selectedWord: Option<Word>): string {
    if selectedWord.Some? && selectedWord.value.spellcheckedWord.Some? then selectedWord.value.spellcheckedWord.value else word
  }

  /** "(corrected from: …)" appears exactly when there is a suggestion that differs from the word
      as recognised. */
  predicate ShowsCorrectedFrom(selectedWord: Option<Word>) {
    selectedWord.Some? && selectedWord.value.spellcheckedWord.Some? &&
    selectedWord.value.spellcheckedWord.value != selectedWord.value.word
  }

  /** Opened from the area, the card's title is the lookup word, and the note appears exactly
      when that differs from the recognised text. */
  lemma CardFromAreaShowsLookupWord(isCameraActive: bool, selectedWord: Option<Word>, hasStrangeWords: bool)
    requires BodyOf(isCameraActive, selectedWord, hasStrangeWords).DefinitionCard?
    ensures var b := BodyOf(isCameraActive, selectedWord, hasStrangeWords);
      CardTitle(b.word, Some(b.selected)) == LookupWord(b.selected) &&
      (ShowsCorrectedFrom(Some(b.selected)) <==> LookupWord(b.selected) != b.selected.word)
  {
  }

  /** The arguments `onSaveWord` is called with. */
  datatype SaveRequest = SaveRequest(word: string, definition: Option<string>)

  /** The save button's click: nothing once saved; otherwise the lookup word and the first
      definition text, if the definition is loaded and has one. */
  function OnSaveClick(isWordSaved: bool, word: string, definition: Option<WordDefinition>, selectedWord: Option<Word>): (r: Option<SaveRequest>)
    ensures r.Some? <==> !isWordSaved
    ensures r.Some? ==> r.value.word == CardTitle(word, selectedWord)
    ensures r.Some? ==> (r.value.definition.Some? <==> definition.Some? && DefinitionText(definition.value).Some?)
    ensures r.Some? && r.value.definition.Some? ==> r.value.definition.value == definition.value.definitions.value[0].definition
  {
    if isWordSaved then None
    else
      var wordToSave := if selectedWord.Some? && selectedWord.value.spellcheckedWord.Some? then selectedWord.value.spellcheckedWord.value else word;
      Some(SaveRequest(wordToSave, if definition.Some? then DefinitionText(definition.value) else None))
  }

  /** What the card shows below the title. */
  datatype CardContent = Loading | NotFound | Items(items: seq<DefinitionItem>)

  function CardContentOf(definition: Option<WordDefinition>): (c: CardContent)
    ensures c == Loading <==> definition.None?
    ensures c == NotFound <==> definition.Some? && (definition.value.definitions.None? || definition.value.definitions.value == [])
    ensures c.Items? ==> definition.Some? && definition.value.definitions == Some(c.items) && c.items != []
  {
    match definition
    case None => Loading
    case Some(d) =>
      match d.definitions
      case None => NotFound
      case Some(items) => if items == [] then NotFound else Items(items)
  }

  /** "Not found" is the same test as a null `definition` getter, the test the camera screen's
      card uses. */
  lemma NotFoundIffNoDefinitionText(d: WordDefinition)
    ensures CardContentOf(Some(d)) == NotFound <==> DefinitionText(d).None?
  {
  }

  /** A dictionary 404 or a transport failure shows "not found", never the loading indicator. */
  lemma FailedLookupShowsNotFound(word: string, outcome: CallOutcome)
    requires outcome.TransportFailure? || !outcome.response.isSuccessful
    ensures CardContentOf(GetDefinition(word, outcome)) == NotFound
  {
    NotFoundWhenUnsuccessful(word, outcome);
  }
}
