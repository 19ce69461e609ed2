/** `camera/CameraComposables`: the camera screen. It holds the scan and selection state that its
    event handlers update, rebuilds the word list with its own copy of the recognition pipeline
    (without spell checking), and hit-tests taps on the frozen image. Camera, OCR and tagger
    calls are not modelled: their results arrive as the handlers' arguments. */
module CameraComposables {
  import opened Wrappers
  import opened Seqs
  import opened WordModel
  import opened DictionaryApiClient
  import WP = WordProcessor
  import SWC = StrangeWordConfig
  import Overlay = WordBoundingBoxOverlay
  import WC = WordComposables

  /** The screen's `Word(word = …, posTag = …, bounds = …)`: the remaining fields take their
      defaults (no suggestion, spelled correctly, no suggestions). */
  function InlineWord(bounds: map<string, Rect>, token: Token): (w: Word)
    ensures w.word == token.word && w.posTag == token.tag
    ensures w.bounds == if token.word in bounds then Some(bounds[token.word]) else None
    ensures w.spellcheckedWord.None? && w.isSpelledCorrectly && w.suggestions == []
  {
    Word(token.word, None, token.tag, if token.word in bounds then Some(bounds[token.word]) else None, true, [])
  }

  /** The inline `map { … }.filter { … }.filter { … }` chain. */
  function InlineWords(bounds: map<string, Rect>, tokens: seq<Token>): seq<Word> {
    Filter(Filter(Map(tokens, t => InlineWord(bounds, t)), WP.TagKept), WP.ShapeKept)
  }

  lemma InlineWordsIsMapOfSurvivors(bounds: map<string, Rect>, tokens: seq<Token>)
    ensures InlineWords(bounds, tokens) == Map(Filter(tokens, WP.Survives), t => InlineWord(bounds, t))
  {
    var f := t => InlineWord(bounds, t);
    var tagTok := (t: Token) => t.tag !in WP.ExcludedTags;
    var shapeTok := (t: Token) => |t.word| > 2 && !WP.ContainsDigit(t.word);
    FilterMap(tokens, f, WP.TagKept, tagTok);
    FilterMap(Filter(tokens, tagTok), f, WP.ShapeKept, shapeTok);
    FilterFilter(tokens, tagTok, shapeTok, WP.Survives);
  }

  /** The inline copy keeps the same tokens as `WordProcessor`, in the same order, with the same
      text, tag and bounds; only the spell-check fields differ. */
  lemma InlineWordsAgreeWithProcessor(checker: WP.SC.SpellChecker, freq: WP.SC.FrequencyLookup, bounds: map<string, Rect>, tokens: seq<Token>)
    ensures |InlineWords(bounds, tokens)| == |WP.ProcessTokens(checker, freq, bounds, tokens)|
    ensures forall k :: 0 <= k < |InlineWords(bounds, tokens)| ==>
      var a := InlineWords(bounds, tokens)[k];
      var b := WP.ProcessTokens(checker, freq, bounds, tokens)[k];
      a.word == b.word && a.posTag == b.posTag && a.bounds == b.bounds
  {
    InlineWordsIsMapOfSurvivors(bounds, tokens);
    WP.ProcessTokensIsMapOfSurvivors(checker, freq, bounds, tokens);
  }

  /** A captured, scaled bitmap; its pixels are not modelled. */
  datatype Bitmap = Bitmap(id: nat)

  /** The state of `CameraScreen` and its `CameraPreview`, as one value. */
  datatype ScreenState = ScreenState(
    selectedWord: Option<Word>,
    selectedWordDefinition: Option<WordDefinition>,
    recognizedWords: seq<Word>,
    isCameraActive: bool,
    isScanning: bool,
    capturedBitmap: Option<Bitmap>,
    wordsWithBounds: seq<Word>,
    inputImageWidth: real,
    inputImageHeight: real)

  /** The definition card of this screen: loading, a red "not found" when the `definition` getter
      is null, otherwise the first item's part of speech and text. */
  datatype CardContent = Loading | NotFound | Shown(partOfSpeech: Option<string>, definition: string)

  function CardContentOf(definition: Option<WordDefinition>): (c: CardContent)
    ensures c == Loading <==> definition.None?
    ensures c == NotFound <==> definition.Some? && DefinitionText(definition.value).None?
    ensures c.Shown? ==> c.partOfSpeech == PartOfSpeech(definition.value) && Some(c.definition) == DefinitionText(definition.value)
  {
    match definition
    case None => Loading
    case Some(d) =>
      match DefinitionText(d)
      case None => NotFound
      case Some(text) => Shown(PartOfSpeech(d), text)
  }

  /** This card and the shared `WordDefinitionCard` agree on loading and on "not found". */
  lemma CardsAgree(definition: Option<WordDefinition>)
    ensures (CardContentOf(definition) == Loading) == (WC.CardContentOf(definition) == WC.Loading)
    ensures (CardContentOf(definition) == NotFound) == (WC.CardContentOf(definition) == WC.NotFound)
  {
    if definition.Some? {
      WC.NotFoundIffNoDefinitionText(definition.value);
    }
  }

  class CameraScreen {
    var selectedWord: Option<Word>
    var selectedWordDefinition: Option<WordDefinition>
    var recognizedWords: seq<Word>
    var isCameraActive: bool
    var isScanning: bool
    var capturedBitmap: Option<Bitmap>
    var wordsWithBounds: seq<Word>
    var inputImageWidth: real
    var inputImageHeight: real
    /** Whether the camera has bound its `ImageCapture` use case yet. */
    var hasImageCapture: bool

    function State(): ScreenState
      reads this
    {
      ScreenState(selectedWord, selectedWordDefinition, recognizedWords, isCameraActive, isScanning,
        capturedBitmap, wordsWithBounds, inputImageWidth, inputImageHeight)
    }

    /** The image dimensions the scale factors divide by are positive. */
    predicate Valid()
      reads this
    {
      inputImageWidth > 0.0 && inputImageHeight > 0.0
    }

    /** The `remember { mutableStateOf(…) }` initial values. */
    constructor ()
      ensures Valid() && !hasImageCapture
      ensures State() == ScreenState(None, None, [], true, false, None, [], 1.0, 1.0)
    {
      selectedWord := None;
      selectedWordDefinition := None;
      recognizedWords := [];
      isCameraActive := true;
      isScanning := false;
      capturedBitmap := None;
      wordsWithBounds := [];
      inputImageWidth := 1.0;
      inputImageHeight := 1.0;
      hasImageCapture := false;
    }

    /** The camera provider's listener binding a new `ImageCapture`. */
    method BindImageCapture()
      modifies this
      ensures hasImageCapture && State() == old(State())
    {
      hasImageCapture := true;
    }

    /** `onCameraStateChanged`: returning to the camera clears the selection and its definition. */
    method OnCameraStateChanged(isActive: bool)
      modifies this
      ensures isActive ==> State() == old(State()).(isCameraActive := true, selectedWord := None, selectedWordDefinition := None)
      ensures !isActive ==> State() == old(State()).(isCameraActive := false)
      ensures hasImageCapture == old(hasImageCapture)
    {
      isCameraActive := isActive;
      if isActive {
        selectedWord := None;
        selectedWordDefinition := None;
      }
    }

    /** Each composition reports `capturedBitmap == null` as the camera state. */
    method Recompose()
      modifies this
      ensures capturedBitmap.None? ==> State() == old(State()).(isCameraActive := true, selectedWord := None, selectedWordDefinition := None)
      ensures capturedBitmap.Some? ==> State() == old(State()).(isCameraActive := false)
      ensures hasImageCapture == old(hasImageCapture)
    {
      OnCameraStateChanged(capturedBitmap.None?);
    }

    /** `onWordSelected`: the word becomes the selection, its definition is reset to loading, and
        the returned text is the one the dictionary is asked for. */
    method OnWordSelected(word: Word) returns (lookup: string)
      modifies this
      ensures lookup == word.word
      ensures State() == old(State()).(selectedWord := Some(word), selectedWordDefinition := None)
      ensures hasImageCapture == old(hasImageCapture)
    {
      selectedWord := Some(word);
      selectedWordDefinition := None;
      lookup := word.word;
    }

    /** The dictionary callback. */
    method OnDefinition(definition: Option<WordDefinition>)
      modifies this
      ensures State() == old(State()).(selectedWordDefinition := definition)
      ensures hasImageCapture == old(hasImageCapture)
    {
      selectedWordDefinition := definition;
    }

    /** The scan button: ignored while scanning; otherwise scanning starts, and stops at once when
        no `ImageCapture` is bound. `takePicture` says whether a capture was requested. */
    method ScanClick() returns (takePicture: bool)
      modifies this
      ensures old(isScanning) ==> !takePicture && State() == old(State())
      ensures !old(isScanning) ==> (takePicture == hasImageCapture &&
        State() == old(State()).(isScanning := hasImageCapture))
      ensures hasImageCapture == old(hasImageCapture)
    {
      takePicture := false;
      if !isScanning {
        isScanning := true;
        if hasImageCapture {
          takePicture := true;
        } else {
          isScanning := false;
        }
      }
    }

    /** `onCaptureSuccess`: the bitmap is stored; with a media image its size becomes the input
        size and recognition starts, without one scanning ends and the bitmap is dropped.
        `imageSize` is the rotated `InputImage`'s width and height. */
    method OnCaptureSuccess(bitmap: Bitmap, imageSize: Option<(nat, nat)>) returns (recognize: bool)
      requires Valid()
      requires imageSize.Some? ==> imageSize.value.0 > 0 && imageSize.value.1 > 0
      modifies this
      ensures Valid()
      ensures recognize <==> imageSize.Some?
      ensures imageSize.Some? ==> State() == old(State()).(capturedBitmap := Some(bitmap),
        inputImageWidth := imageSize.value.0 as real, inputImageHeight := imageSize.value.1 as real)
      ensures imageSize.None? ==> State() == old(State()).(capturedBitmap := None, isScanning := false)
      ensures hasImageCapture == old(hasImageCapture)
    {
      capturedBitmap := Some(bitmap);
      match imageSize {
        case Some(size) =>
          inputImageWidth := size.0 as real;
          inputImageHeight := size.1 as real;
          recognize := true;
        case None =>
          isScanning := false;
          capturedBitmap := None;
          recognize := false;
      }
    }

    /** `onError` of the capture: scanning ends and the bitmap is cleared. */
    method OnCaptureError()
      modifies this
      ensures State() == old(State()).(isScanning := false, capturedBitmap := None)
      ensures hasImageCapture == old(hasImageCapture)
    {
      isScanning := false;
      capturedBitmap := None;
    }

    /** The recognizer's success listener: builds the bounds map and the word list from `result`
        and the tagger's `tokens`; a non-empty list replaces the boxes and is reported; scanning
        ends either way and the bitmap is kept. */
    method OnRecognitionSuccess(result: Text, tokens: seq<Token>) returns (words: seq<Word>)
      modifies this
      ensures words == InlineWords(WP.BoundsMap(AllElements(result.textBlocks)), tokens)
      ensures words != [] ==> State() == old(State()).(wordsWithBounds := words, recognizedWords := words, isScanning := false)
      ensures words == [] ==> State() == old(State()).(isScanning := false)
      ensures hasImageCapture == old(hasImageCapture)
    {
      var wordBoundsMap := WP.WordProcessor.ExtractWordBounds(result);
      words := InlineWords(wordBoundsMap, tokens);
      if words != [] {
        wordsWithBounds := words;
        recognizedWords := words;
      }
      isScanning := false;
    }

    /** The recognizer's failure listener: scanning ends, the bitmap stays. */
    method OnRecognitionFailure()
      modifies this
      ensures State() == old(State()).(isScanning := false)
      ensures hasImageCapture == old(hasImageCapture)
    {
      isScanning := false;
    }

    /** "Open Camera": back to the live preview with no boxes. */
    method OpenCamera()
      modifies this
      ensures State() == old(State()).(capturedBitmap := None, wordsWithBounds := [])
      ensures hasImageCapture == old(hasImageCapture)
    {
      capturedBitmap := None;
      wordsWithBounds := [];
    }

    /** A tap on the frozen image: the overlay's hit test over `wordsWithBounds`, and at most one
        `onWordSelected`. */
    method Tap(commonWords: set<string>, canvas: Overlay.Size, tapOffset: Overlay.Offset) returns (selected: seq<Word>)
      requires Valid()
      modifies this
      ensures |selected| <= 1
      ensures selected == OptionToSeq(Overlay.SelectedWord(old(wordsWithBounds), commonWords,
        Overlay.ScaleOf(canvas, old(inputImageWidth), old(inputImageHeight)), tapOffset))
      ensures selected == [] ==> State() == old(State())
      ensures selected != [] ==> State() == old(State()).(selectedWord := Some(selected[0]), selectedWordDefinition := None)
      ensures hasImageCapture == old(hasImageCapture)
    {
      selected := Overlay.OnTap(wordsWithBounds, commonWords, canvas, inputImageWidth, inputImageHeight, tapOffset);
      if selected != [] {
        var _ := OnWordSelected(selected[0]);
      }
    }

    /** `recognizedWords.any { isStrange(it.word) }`. */
    predicate HasStrangeWords(commonWords: set<string>)
      reads this
      ensures HasStrangeWords(commonWords) <==> Filter(recognizedWords, (w: Word) => SWC.IsStrangeIn(commonWords, w.word)) != []
    {
      var strange := (w: Word) => SWC.IsStrangeIn(commonWords, w.word);
      var kept := Filter(recognizedWords, strange);
      FilterMembershipAll(recognizedWords, strange);
      assert kept != [] ==> kept[0] in kept;
      assert forall i :: 0 <= i < |recognizedWords| && strange(recognizedWords[i]) ==> recognizedWords[i] in kept;
      exists i :: 0 <= i < |recognizedWords| && strange(recognizedWords[i])
    }

    /** The area's header, by the shared priority rule. */
    function Header(commonWords: set<string>): (h: WC.Header)
      reads this
      ensures h == WC.TapWordInstruction <==> (!isCameraActive && selectedWord.None? &&
        exists i :: 0 <= i < |recognizedWords| && SWC.IsStrangeIn(commonWords, recognizedWords[i].word))
      ensures h == WC.NoStrangeWords <==> (!isCameraActive && selectedWord.None? &&
        forall i :: 0 <= i < |recognizedWords| ==> !SWC.IsStrangeIn(commonWords, recognizedWords[i].word))
    {
      WC.HeaderOf(isCameraActive, selectedWord, HasStrangeWords(commonWords))
    }
  }

  /** After a selection, the header shows the word's details until the camera is reopened. */
  method SelectThenHeader(s: CameraScreen, commonWords: set<string>, word: Word) returns (h: WC.Header)
    requires !s.isCameraActive
    modifies s
    ensures h == WC.WordDetails
  {
    var _ := s.OnWordSelected(word);
    h := s.Header(commonWords);
  }

  /** Reverting to the live camera after a selection drops it and shows the camera instruction. */
  method ReopenCameraClearsSelection(s: CameraScreen, commonWords: set<string>, word: Word) returns (h: WC.Header)
    modifies s
    ensures s.selectedWord.None? && s.selectedWordDefinition.None? && s.capturedBitmap.None?
    ensures h == WC.CameraInstruction
  {
    var _ := s.OnWordSelected(word);
    s.OpenCamera();
    s.Recompose();
    h := s.Header(commonWords);
  }
}
