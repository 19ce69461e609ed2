# Strana: a Dafny model of the word pipeline

Strana is an Android app. It photographs printed text, recognises the words in it, and marks the
"strange" ones: words missing from a list of common English words. Tapping a strange word looks
it up in an online dictionary. A separate data-collection screen lets a user correct recognised
words, mark which ones they find strange, and export the sessions as CSV.

This project models the app's deterministic core in Dafny 4.11 and proves properties of it:

- **Word pipeline** (`WordProcessor`, and the inline copy in `CameraComposables`):
  - builds a text-to-box map over the recognised elements;
  - turns tagger tokens into `Word` records;
  - drops proper nouns, punctuation, short words and words with digits.
- **Spell checking** (`SpellChecker`): the verdict, the suggestions, the most frequent
  suggestion, and the lazily created shared instance.
- **Strangeness** (both `StrangeWordConfig` objects): the common-word set loaded once from the
  word list, and the membership test.
- **Tap and overlay** (`WordBoundingBoxOverlay` and the camera screen):
  - scaling image boxes to the display;
  - the first strange, bounded word under a tap;
  - the border colour rule.
- **Camera screen** (`CameraComposables`, `CameraActivity`): the state changes on scan,
  capture, recognition, selection and reopening the camera. Also the header and body rules, the
  strange-word list and the definition cache.
- **Dictionary client** (`DictionaryApiClient`): reducing an API response to a `WordDefinition`.
- **Data collection** (`DataCollectionComposables`, `DataCollectionStorage`):
  - collected data and its updates;
  - the editor's correction rule;
  - `generateCorrectedText`, which applies corrections longest first as whole-word regex
    replacements;
  - the screen's reset and save rules;
  - session file names and the listing filter;
  - the CSV export, with a reader for section 2 of RFC 4180 that the export is proved to round-trip
    through.

External collaborators become inputs:

| collaborator | modelled as |
|---|---|
| ML Kit text recognizer | a `Text` value of blocks, lines and elements |
| Stanford tagger | a sequence of `Token`s |
| Hunspell | a pair of functions `spell` and `suggest` |
| frequency table | a function `string -> Option<int>` |
| word list file | a sequence of lines and a read-error flag |
| storage directory | a `Directory` value |
| Gson | encoder and decoder functions |
| dictionary HTTP call | a `CallOutcome` |
| session UUID and clock readings | parameters |

Each source file maps to one Dafny module of the same name. Four helper modules support them:

- `Wrappers`: `Option`, `Result`, `Outcome`.
- `Seqs`: Kotlin's `map`, `filter`, `distinct`, `maxBy`, `joinToString`, `startsWith`, `endsWith`.
- `Chars`: ASCII versions of the character classes, `lowercase()` and `trim()`.
- `WordModel`: the shared recognition records.

## Model

| member | source | states |
|---|---|---|
| WordProcessor.BoundsMapSnoc | app/src/main/java/com/mglvl/strana/camera/WordProcessor.kt:80-87 | One more element adds its text and box to the map when the box is non-null, and otherwise leaves the map unchanged |
| WordProcessor.BoundsMapKeys | app/src/main/java/com/mglvl/strana/camera/WordProcessor.kt:78-90 | A text is a key of the bounds map iff some element in block/line/element order has that text and a non-null box |
| WordProcessor.BoundsMapLastWins | app/src/main/java/com/mglvl/strana/camera/WordProcessor.kt:81-87 | A key's box is that of an element with that text, and every later element with the same text has no box: the last boxed occurrence wins, and a later null box does not erase it |
| WordProcessor.ToWord | app/src/main/java/com/mglvl/strana/camera/WordProcessor.kt:37-56 | The `Word` keeps the token's text and tag and takes its bounds from the exact-text lookup (null when absent). Its verdict, suggestions and spellchecked word are the spell checker's for that text |
| WordProcessor.ProcessTokensIsMapOfSurvivors | app/src/main/java/com/mglvl/strana/camera/WordProcessor.kt:35-65 | Mapping and then filtering twice equals mapping the surviving tokens: a tag not in the excluded set, length > 2, no digit |
| WordProcessor.ProcessTokensSpec | app/src/main/java/com/mglvl/strana/camera/WordProcessor.kt:35-65 | There is an increasing index sequence into the tokens, one index per output word, with output k built from token idx[k]. A token index is in it iff that token survives the filters; duplicates are kept |
| WordProcessor.ProcessedWordsAreKept | app/src/main/java/com/mglvl/strana/camera/WordProcessor.kt:57-65 | Every output word has a tag outside the excluded set, more than two characters, and no digit |
| WordProcessor.WordProcessor.ExtractWordBounds | app/src/main/java/com/mglvl/strana/camera/WordProcessor.kt:74-93 | The triple nested loop builds exactly the fold `BoundsMap` over all elements in order |
| WordProcessor.WordProcessor.ProcessTextRecognitionResult | app/src/main/java/com/mglvl/strana/camera/WordProcessor.kt:27-66 | The result is the token chain over the bounds map of the recognised text |
| SpellChecker.MostFrequent | app/src/main/java/com/mglvl/strana/camera/SpellChecker.kt:102-106 | There is a result iff there are suggestions. It is one of them, no suggestion has a higher frequency (missing counts as 0), and it is the first of maximal frequency, as `maxBy` picks |
| SpellChecker.SpellChecker.GetSuggestions | app/src/main/java/com/mglvl/strana/camera/SpellChecker.kt:71-76 | Empty for words of length <= 1 and for correctly spelled words; otherwise Hunspell's suggestions |
| SpellChecker.SpellChecker.GetBestSuggestion | app/src/main/java/com/mglvl/strana/camera/SpellChecker.kt:84-91 | Present iff there are suggestions; then it is a suggestion with no suggestion more frequent |
| SpellChecker.SpellChecker.CheckSpelling | app/src/main/java/com/mglvl/strana/camera/SpellChecker.kt:99-114 | Keeps the word and Hunspell's verdict. A correct word has no suggestions and no best suggestion; the best suggestion is present iff the suggestions are non-empty, and is then one of them |
| SpellChecker.SpellChecker.CheckSpellingAgrees | app/src/main/java/com/mglvl/strana/camera/SpellChecker.kt:84-106 | `checkSpelling`'s suggestions and best suggestion equal `getSuggestions` and `getBestSuggestion` |
| SpellChecker.SpellChecker.ShortWordNoSuggestion | app/src/main/java/com/mglvl/strana/camera/SpellChecker.kt:72-74 | A word of length <= 1 gets no suggestions and no best suggestion, even when misspelled |
| SpellChecker.SpellChecker.BestIsMostFrequent | app/src/main/java/com/mglvl/strana/camera/SpellChecker.kt:103 | For any suggestion there is a best suggestion with frequency at least that suggestion's |
| SpellChecker.Companion.GetInstance | app/src/main/java/com/mglvl/strana/camera/SpellChecker.kt:25-52 | With an instance, returns it and changes nothing. Without one, creates and stores a fresh checker over the loaded dictionary, or fails and stays empty when loading throws |
| SpellChecker.GetInstanceTwice | app/src/main/java/com/mglvl/strana/camera/SpellChecker.kt:25-30 | Once a call succeeds, the next call returns the same object |
| StrangeWordConfig.CommonWordsByMembership | app/src/main/java/com/mglvl/strana/camera/StrangeWordConfig.kt:19-30 | A word is in the loaded set iff it is the key (first space-separated field, trimmed, lowercased) of one of the lines read |
| StrangeWordConfig.CommonWordsBySize | app/src/main/java/com/mglvl/strana/camera/StrangeWordConfig.kt:22-25 | The loaded set has at most as many words as lines read |
| StrangeWordConfig.StrangeIgnoresCase | app/src/main/java/com/mglvl/strana/camera/StrangeWordConfig.kt:42-44 | `isStrange(w) == isStrange(lowercase(w))` |
| StrangeWordConfig.EverythingStrangeWhenEmpty | app/src/main/java/com/mglvl/strana/camera/StrangeWordConfig.kt:8 | With the initial empty set every word is strange |
| StrangeWordConfig.Config.constructor | app/src/main/java/com/mglvl/strana/camera/StrangeWordConfig.kt:8-10 | Starts with an empty set, not initialised |
| StrangeWordConfig.Config.AddLeadingWords | app/src/main/java/com/mglvl/strana/camera/StrangeWordConfig.kt:19-30 | The counted `forEach`: adds the key of each of the first min(limit, lines delivered) lines, returns that count, and leaves the flag alone |
| StrangeWordConfig.Config.Initialize | app/src/main/java/com/mglvl/strana/camera/StrangeWordConfig.kt:12-39 | A no-op once initialised. Otherwise adds the keys of the first min(40000, lines delivered) lines and becomes initialised iff the read does not throw; a throw is reported and the words added so far stay. The set grows by at most 40000 |
| StrangeWordConfig.LoadOnce | app/src/main/java/com/mglvl/strana/camera/StrangeWordConfig.kt:9-32 | After a successful load the set has at most 40000 words, each the key of one of the first 40000 lines |
| WordBoundingBoxOverlay.ScaleOf | app/src/main/java/com/mglvl/strana/camera/WordBoundingBoxOverlay.kt:43-44 | The scale factors times the image size give the canvas size |
| WordBoundingBoxOverlay.ToDisplay | app/src/main/java/com/mglvl/strana/camera/WordBoundingBoxOverlay.kt:53-59 | Each display edge is the image edge times its axis' scale factor (left + width = right * sx, and likewise vertically) |
| WordBoundingBoxOverlay.SelectedWord | app/src/main/java/com/mglvl/strana/camera/WordBoundingBoxOverlay.kt:47-63 | The selection is strange, bounded and under the tap, with no earlier word in the list selectable. It is absent iff no word is selectable |
| WordBoundingBoxOverlay.OnTap | app/src/main/java/com/mglvl/strana/camera/WordBoundingBoxOverlay.kt:41-75 | The flagged loop with `break` calls `onWordSelected` at most once, and exactly with `SelectedWord` |
| WordBoundingBoxOverlay.BorderColor | app/src/main/java/com/mglvl/strana/camera/WordBoundingBoxOverlay.kt:98-102 | Green iff the word's status is true; Yellow iff not Green and misspelled; Red iff not Green and spelled correctly |
| WordBoundingBoxOverlay.DrawCommands | app/src/main/java/com/mglvl/strana/camera/WordBoundingBoxOverlay.kt:90-111 | One rectangle per strange word with bounds, in order, at its scaled position, in its border colour |
| WordBoundingBoxOverlay.Render | app/src/main/java/com/mglvl/strana/camera/WordBoundingBoxOverlay.kt:35-113 | No canvas, and so no tap handler, exactly when the word list is empty; every rectangle drawn belongs to a strange word with bounds |
| WordBoundingBoxOverlay.RenderDrawsEveryBoundedStrangeWord | app/src/main/java/com/mglvl/strana/camera/WordBoundingBoxOverlay.kt:88-111 | Every strange word with bounds gets a rectangle |
| CameraComposables.InlineWord | app/src/main/java/com/mglvl/strana/camera/CameraComposables.kt:344-358 | Keeps the token's text and tag and looks up its bounds; the other `Word` fields take their defaults |
| CameraComposables.InlineWordsIsMapOfSurvivors | app/src/main/java/com/mglvl/strana/camera/CameraComposables.kt:344-375 | The inline chain maps exactly the tokens that survive the same two filters |
| CameraComposables.InlineWordsAgreeWithProcessor | app/src/main/java/com/mglvl/strana/camera/CameraComposables.kt:324-375 | The inline copy and `WordProcessor` give lists of the same length whose words agree on text, tag and bounds |
| CameraComposables.CardContentOf | app/src/main/java/com/mglvl/strana/camera/CameraComposables.kt:566-603 | Loading iff there is no definition. Not found iff the `definition` getter is null. Otherwise the part of speech and the definition text |
| CameraComposables.CardsAgree | app/src/main/java/com/mglvl/strana/camera/CameraComposables.kt:566-585 | This card and the shared card agree on when they show loading and when they show not found |
| CameraComposables.CameraScreen.constructor | app/src/main/java/com/mglvl/strana/camera/CameraComposables.kt:71-151 | The `remember` initial values: no selection, camera active, not scanning, image size 1 x 1 |
| CameraComposables.CameraScreen.BindImageCapture | app/src/main/java/com/mglvl/strana/camera/CameraComposables.kt:269-270 | Binding the camera stores a capture use case and changes nothing else |
| CameraComposables.CameraScreen.OnCameraStateChanged | app/src/main/java/com/mglvl/strana/camera/CameraComposables.kt:98-104 | Returning to the camera clears the word and its definition; otherwise only the flag changes |
| CameraComposables.CameraScreen.Recompose | app/src/main/java/com/mglvl/strana/camera/CameraComposables.kt:157-158 | Each composition reports "camera active" iff there is no captured bitmap |
| CameraComposables.CameraScreen.OnWordSelected | app/src/main/java/com/mglvl/strana/camera/CameraComposables.kt:89-96 | The word is selected, its definition reset to loading, and the word's raw text is looked up |
| CameraComposables.CameraScreen.OnDefinition | app/src/main/java/com/mglvl/strana/camera/CameraComposables.kt:94-96 | The callback sets only the definition |
| CameraComposables.CameraScreen.ScanClick | app/src/main/java/com/mglvl/strana/camera/CameraComposables.kt:292-431 | Ignored while scanning. Otherwise scanning starts and a picture is taken iff an image capture is bound; without one, scanning stops at once |
| CameraComposables.CameraScreen.OnCaptureSuccess | app/src/main/java/com/mglvl/strana/camera/CameraComposables.kt:305-415 | With a media image: stores the bitmap and the image size, and recognition runs. Without: clears the bitmap and stops scanning |
| CameraComposables.CameraScreen.OnCaptureError | app/src/main/java/com/mglvl/strana/camera/CameraComposables.kt:421-425 | Scanning stops and the bitmap is cleared |
| CameraComposables.CameraScreen.OnRecognitionSuccess | app/src/main/java/com/mglvl/strana/camera/CameraComposables.kt:322-401 | The words come from the inline chain over the bounds map. They replace the overlay and recognised lists only when non-empty, and scanning stops |
| CameraComposables.CameraScreen.OnRecognitionFailure | app/src/main/java/com/mglvl/strana/camera/CameraComposables.kt:402-410 | Scanning stops and the bitmap is kept |
| CameraComposables.CameraScreen.OpenCamera | app/src/main/java/com/mglvl/strana/camera/CameraComposables.kt:241-243 | Clears the bitmap and the boxes; nothing else changes |
| CameraComposables.CameraScreen.Tap | app/src/main/java/com/mglvl/strana/camera/CameraComposables.kt:176-203 | At most one word is selected: the overlay's first strange bounded word under the tap. Selecting resets the definition; a miss changes nothing |
| CameraComposables.CameraScreen.HasStrangeWords | app/src/main/java/com/mglvl/strana/camera/CameraComposables.kt:116 | Some recognised word is strange iff filtering the recognised words for strange ones leaves any |
| CameraComposables.CameraScreen.Header | app/src/main/java/com/mglvl/strana/camera/CameraComposables.kt:472-477 | Off the camera and with no selection, the tap instruction shows iff some recognised word is strange, and the no-strange-words text iff none is |
| CameraComposables.SelectThenHeader | app/src/main/java/com/mglvl/strana/camera/CameraComposables.kt:472-477 | Off the camera, after a selection the header shows the word's details |
| CameraComposables.ReopenCameraClearsSelection | app/src/main/java/com/mglvl/strana/camera/CameraComposables.kt:98-104 | Reopening the camera and recomposing drops the selection and its definition and shows the camera instruction |
| CameraActivity.StrangeWordConfig.Initialize | app/src/main/java/com/mglvl/strana/CameraActivity.kt:260-286 | A no-op once initialised. Otherwise adds `lowercase(trim(line))` of the first min(25000, lines delivered) lines and becomes initialised iff the read does not throw |
| CameraActivity.FieldsConcat | app/src/main/java/com/mglvl/strana/CameraActivity.kt:179 | Splitting at the separators and concatenating gives back the letters and apostrophes of the text, in order |
| CameraActivity.FieldsOnlyWordParts | app/src/main/java/com/mglvl/strana/CameraActivity.kt:179 | Every piece of the split consists of letters and apostrophes only |
| CameraActivity.ConcatDropsEmpty | app/src/main/java/com/mglvl/strana/CameraActivity.kt:180-182 | Dropping empty pieces does not change their concatenation |
| CameraActivity.ConcatLower | app/src/main/java/com/mglvl/strana/CameraActivity.kt:183-186 | Lowercasing each piece equals lowercasing their concatenation |
| CameraActivity.RunLength | app/src/main/java/com/mglvl/strana/CameraActivity.kt:179 | The leading run of letters and apostrophes ends at the end of the text or at a separator |
| CameraActivity.FieldsAreRuns | app/src/main/java/com/mglvl/strana/CameraActivity.kt:179-182 | Splitting at separators and dropping the empty pieces leaves exactly the maximal runs of letters and apostrophes |
| CameraActivity.SplitWordsSpec | app/src/main/java/com/mglvl/strana/CameraActivity.kt:179-186 | The words are exactly the maximal runs of letters and apostrophes of the text, in order and lowercased; so each is non-empty, has no uppercase letter, and together they are the lowercased letters and apostrophes of the text |
| CameraActivity.OnTextRecognized | app/src/main/java/com/mglvl/strana/CameraActivity.kt:188-191 | `onWordsRecognized` is called iff the word list is non-empty, and with that list |
| CameraActivity.StrangeWords | app/src/main/java/com/mglvl/strana/CameraActivity.kt:306-311 | At most 15 words, no duplicates, each strange and recognised |
| CameraActivity.StrangeWordsAreFirstFifteen | app/src/main/java/com/mglvl/strana/CameraActivity.kt:306-311 | The list holds exactly the distinct words among the first 15 strange ones, in order of first occurrence |
| CameraActivity.CardContentOf | app/src/main/java/com/mglvl/strana/CameraActivity.kt:407-436 | Loading iff no definition has arrived. Otherwise the part of speech, the `definition` getter's text when it is non-null, and "No definition found" iff the getter is null (or is that very text) |
| CameraActivity.DefinitionsArea.FetchDefinitions | app/src/main/java/com/mglvl/strana/CameraActivity.kt:317-328 | Afterwards every strange word is a key. Old entries are unchanged and new keys map to null. A lookup starts exactly once for each strange word that had no entry |
| CameraActivity.DefinitionsArea.OnDefinition | app/src/main/java/com/mglvl/strana/CameraActivity.kt:324-326 | A callback sets only its own word's entry |
| CameraActivity.DefinitionsArea.CardFor | app/src/main/java/com/mglvl/strana/CameraActivity.kt:358-436 | A word's card is loading iff its cache entry is missing or null; otherwise it shows that entry's definition text |
| CameraActivity.FetchThenShow | app/src/main/java/com/mglvl/strana/CameraActivity.kt:317-359 | A strange word without an entry shows a loading card after the fetch loop |
| DictionaryApiClient.PartOfSpeech | app/src/main/java/com/mglvl/strana/dictionary/DictionaryApiClient.kt:75-76 | Null iff the definitions are null or empty, else the first item's part of speech |
| DictionaryApiClient.DefinitionText | app/src/main/java/com/mglvl/strana/dictionary/DictionaryApiClient.kt:78-79 | Null iff the definitions are null or empty, else the first item's definition |
| DictionaryApiClient.DefinitionItems | app/src/main/java/com/mglvl/strana/dictionary/DictionaryApiClient.kt:119-127 | One item per meaning with at least one definition, in meaning order, holding that meaning's first definition |
| DictionaryApiClient.OnResponse | app/src/main/java/com/mglvl/strana/dictionary/DictionaryApiClient.kt:113-147 | Unsuccessful: the requested word with null definitions. Successful with a null or empty body: null. Otherwise the first entry's word and its items |
| DictionaryApiClient.OnFailure | app/src/main/java/com/mglvl/strana/dictionary/DictionaryApiClient.kt:149-157 | The requested word with null definitions, so both getters are null |
| DictionaryApiClient.OnlyFirstEntryUsed | app/src/main/java/com/mglvl/strana/dictionary/DictionaryApiClient.kt:115-116 | Bodies with the same first entry give the same result |
| DictionaryApiClient.DefinitionTextOfEntry | app/src/main/java/com/mglvl/strana/dictionary/DictionaryApiClient.kt:116-134 | For a found entry the `definition` getter is the first definition of the first meaning that has one, and null iff no meaning has one |
| DictionaryApiClient.NotFoundWhenUnsuccessful | app/src/main/java/com/mglvl/strana/dictionary/DictionaryApiClient.kt:138-157 | A non-successful response and a transport failure both deliver the requested word with a null `definition` |
| WordComposables.LookupWord | app/src/main/java/com/mglvl/strana/ui/composables/WordComposables.kt:90 | The spellchecked word if present, else the word |
| WordComposables.HeaderOf | app/src/main/java/com/mglvl/strana/ui/composables/WordComposables.kt:55-60 | Each header, stated both ways: camera first, then a selection, then strange words, then none |
| WordComposables.BodyOf | app/src/main/java/com/mglvl/strana/ui/composables/WordComposables.kt:70-133 | The definition card is for the selected word and looks up its lookup word |
| WordComposables.BodyFollowsHeader | app/src/main/java/com/mglvl/strana/ui/composables/WordComposables.kt:55-133 | Each header comes with its own body, both ways |
| WordComposables.CardFromAreaShowsLookupWord | app/src/main/java/com/mglvl/strana/ui/composables/WordComposables.kt:160-173 | The card's title is the lookup word, and "(corrected from …)" shows iff that differs from the recognised word |
| WordComposables.OnSaveClick | app/src/main/java/com/mglvl/strana/ui/composables/WordComposables.kt:178-185 | Saves iff not yet saved, with `spellcheckedWord ?: word`, and with the first definition text exactly when there is one |
| WordComposables.CardContentOf | app/src/main/java/com/mglvl/strana/ui/composables/WordComposables.kt:197-249 | Loading iff the definition is null. Not found iff its definitions are null or empty. Otherwise the non-empty items |
| WordComposables.NotFoundIffNoDefinitionText | app/src/main/java/com/mglvl/strana/ui/composables/WordComposables.kt:210 | "Not found" iff the `definition` getter is null |
| WordComposables.FailedLookupShowsNotFound | app/src/main/java/com/mglvl/strana/ui/composables/WordComposables.kt:210-216 | A failed or unsuccessful lookup shows "Meaning couldn't be found" |
| CollectedWordData.SettledWord | app/src/main/java/com/mglvl/strana/datacollection/DataCollectionComposables.kt:570 | `correctedWord ?: originalWord` |
| DataCollectionComposables.InitialCollectedData | app/src/main/java/com/mglvl/strana/datacollection/DataCollectionComposables.kt:112-120 | One entry per word, in order: unmarked, the suggestion as the correction, bounds and tag copied |
| DataCollectionComposables.UpdateCollected | app/src/main/java/com/mglvl/strana/datacollection/DataCollectionComposables.kt:178-183 | Same length; entries for the selected word are replaced and every other entry is unchanged |
| DataCollectionComposables.FindCollected | app/src/main/java/com/mglvl/strana/datacollection/DataCollectionComposables.kt:177 | Found iff some entry has that word; the result is the first such entry |
| DataCollectionComposables.FindAfterUpdate | app/src/main/java/com/mglvl/strana/datacollection/DataCollectionComposables.kt:177-183 | After an update the editor finds exactly the data it emitted |
| DataCollectionComposables.UpdateIdempotent | app/src/main/java/com/mglvl/strana/datacollection/DataCollectionComposables.kt:180-182 | Applying the same update twice is the same as once |
| DataCollectionComposables.EditedData | app/src/main/java/com/mglvl/strana/datacollection/DataCollectionComposables.kt:481-489 | `correctedWord` is null iff the text equals the original word; the mark, bounds and tag are copied |
| DataCollectionComposables.EditorRoundTrip | app/src/main/java/com/mglvl/strana/datacollection/DataCollectionComposables.kt:447-484 | Reopening the editor shows the emitted mark. It shows the emitted text unless that text was set back to the word while a different suggestion exists |
| DataCollectionComposables.InsertKeepsOrder | app/src/main/java/com/mglvl/strana/datacollection/DataCollectionComposables.kt:680 | Inserting into a non-increasing list keeps it non-increasing and adds exactly the element |
| DataCollectionComposables.InsertLengthClass | app/src/main/java/com/mglvl/strana/datacollection/DataCollectionComposables.kt:680 | Inserting appends the element to the end of its length class |
| DataCollectionComposables.SortedByDescendingLengthSpec | app/src/main/java/com/mglvl/strana/datacollection/DataCollectionComposables.kt:680 | The sort is non-increasing in original-word length, a permutation, and stable: each length class keeps its input order |
| DataCollectionComposables.ReplaceFromSelf | app/src/main/java/com/mglvl/strana/datacollection/DataCollectionComposables.kt:684-687 | Replacing a word by itself leaves the text unchanged |
| DataCollectionComposables.ReplaceFromNoMatch | app/src/main/java/com/mglvl/strana/datacollection/DataCollectionComposables.kt:684-687 | With no whole-word occurrence (one inside a longer word does not count) the text is unchanged |
| DataCollectionComposables.ReplaceExactWord | app/src/main/java/com/mglvl/strana/datacollection/DataCollectionComposables.kt:684-687 | A text that is exactly the word becomes the replacement |
| DataCollectionComposables.ReplaceAtMatch | app/src/main/java/com/mglvl/strana/datacollection/DataCollectionComposables.kt:684-687 | At a whole-word match the replacement is emitted and scanning resumes after the match |
| DataCollectionComposables.CorrectionOrderSafe | app/src/main/java/com/mglvl/strana/datacollection/DataCollectionComposables.kt:678-680 | The sorted corrections are drawn from the entries that have a correction |
| DataCollectionComposables.GenerateCorrectedText | app/src/main/java/com/mglvl/strana/datacollection/DataCollectionComposables.kt:674-691 | The loop applies the corrections one by one, in the order of the stable descending-length sort of the entries that have one |
| DataCollectionComposables.NoCorrectionsNoChange | app/src/main/java/com/mglvl/strana/datacollection/DataCollectionComposables.kt:679-690 | With no corrections the text is returned unchanged |
| DataCollectionComposables.IdentityCorrectionsNoChange | app/src/main/java/com/mglvl/strana/datacollection/DataCollectionComposables.kt:683-687 | Corrections equal to their original words leave the text unchanged |
| DataCollectionComposables.MarkedStatusLastWins | app/src/main/java/com/mglvl/strana/datacollection/DataCollectionComposables.kt:140-142 | The status map's keys are exactly the collected words, and each value is the mark of the word's last entry |
| DataCollectionComposables.OverlayGreenIffMarked | app/src/main/java/com/mglvl/strana/datacollection/DataCollectionComposables.kt:135-142 | On this screen a word's box is green iff its last entry is marked strange |
| DataCollectionComposables.Summarize | app/src/main/java/com/mglvl/strana/datacollection/DataCollectionComposables.kt:613-626 | The dialog counts all words and the marked ones, and lists the settled form of each marked word in order |
| DataCollectionComposables.InitialDataHasNoStrangeWords | app/src/main/java/com/mglvl/strana/datacollection/DataCollectionComposables.kt:116 | Freshly captured data has no strange words |
| DataCollectionComposables.DataCollectionScreen.constructor | app/src/main/java/com/mglvl/strana/datacollection/DataCollectionComposables.kt:80-89 | The `remember` initial values |
| DataCollectionComposables.DataCollectionScreen.OnImageCaptured | app/src/main/java/com/mglvl/strana/datacollection/DataCollectionComposables.kt:104-121 | Stores the image, words and text, leaves the camera, and starts the collected data from the words; afterwards Scan Again is enabled, and Save iff some word was recognised |
| DataCollectionComposables.DataCollectionScreen.OnOverlayWordSelected | app/src/main/java/com/mglvl/strana/datacollection/DataCollectionComposables.kt:143-145 | The tapped word is selected |
| DataCollectionComposables.DataCollectionScreen.OnListWordSelected | app/src/main/java/com/mglvl/strana/datacollection/DataCollectionComposables.kt:192-194 | Selects the first recognised word with the entry's text, or nothing |
| DataCollectionComposables.DataCollectionScreen.OnDataChanged | app/src/main/java/com/mglvl/strana/datacollection/DataCollectionComposables.kt:178-183 | Replaces the selected word's entries; nothing else changes |
| DataCollectionComposables.DataCollectionScreen.OnEditorClose | app/src/main/java/com/mglvl/strana/datacollection/DataCollectionComposables.kt:184-186 | Clears the selection |
| DataCollectionComposables.DataCollectionScreen.ScanAgain | app/src/main/java/com/mglvl/strana/datacollection/DataCollectionComposables.kt:206-216 | Every scan field goes back to its camera-active default, the dialog state is kept, and both buttons become disabled |
| DataCollectionComposables.DataCollectionScreen.ScanAgainEnabled | app/src/main/java/com/mglvl/strana/datacollection/DataCollectionComposables.kt:216 | "Scan Again" is enabled exactly when the camera is not active |
| DataCollectionComposables.DataCollectionScreen.SaveEnabled | app/src/main/java/com/mglvl/strana/datacollection/DataCollectionComposables.kt:250 | "Save Results" is enabled when the camera is not active and there is collected data, so only when "Scan Again" is |
| DataCollectionComposables.DataCollectionScreen.SaveResults | app/src/main/java/com/mglvl/strana/datacollection/DataCollectionComposables.kt:221-248 | On the camera: nothing. Otherwise, builds the session from the data and the corrected text; when saving succeeds, opens the dialog on it; when it throws, the state is unchanged |
| DataCollectionComposables.DataCollectionScreen.CloseResults | app/src/main/java/com/mglvl/strana/datacollection/DataCollectionComposables.kt:273-277 | Closes the dialog |
| DataCollectionStorage.SessionFileName | app/src/main/java/com/mglvl/strana/datacollection/DataCollectionStorage.kt:34 | The name starts with "session_", ends with ".json", and holds the id between them |
| DataCollectionStorage.SessionFileNameIff | app/src/main/java/com/mglvl/strana/datacollection/DataCollectionStorage.kt:34-60 | The listing's name test accepts exactly the names `SessionFileName` produces |
| DataCollectionStorage.DecodedMembership | app/src/main/java/com/mglvl/strana/datacollection/DataCollectionStorage.kt:60-68 | `mapNotNull` keeps a session iff some file decodes to it |
| DataCollectionStorage.SavedSessions | app/src/main/java/com/mglvl/strana/datacollection/DataCollectionStorage.kt:54-69 | A missing or unlistable directory gives no sessions |
| DataCollectionStorage.SavedSessionsMembership | app/src/main/java/com/mglvl/strana/datacollection/DataCollectionStorage.kt:54-69 | A session is listed iff some regular file with a session name decodes to it |
| DataCollectionStorage.SaveSession | app/src/main/java/com/mglvl/strana/datacollection/DataCollectionStorage.kt:26-46 | Creates the directory if needed; the new listing holds exactly the session's file and the old files of other names, so a stale file of the same name is replaced. An unusable directory makes the write throw |
| DataCollectionStorage.SaveThenList | app/src/main/java/com/mglvl/strana/datacollection/DataCollectionStorage.kt:26-69 | Saving into a usable directory succeeds, the saved session is listed again when its JSON decodes back to it, and the only file of its name is the new one |
| DataCollectionStorage.DecimalRoundTrip | app/src/main/java/com/mglvl/strana/datacollection/DataCollectionStorage.kt:102 | The timestamp column reads back as the timestamp |
| DataCollectionStorage.CsvText | app/src/main/java/com/mglvl/strana/datacollection/DataCollectionStorage.kt:89-103 | The file starts with the header line |
| DataCollectionStorage.ExportAllDataToCsv | app/src/main/java/com/mglvl/strana/datacollection/DataCollectionStorage.kt:77-115 | Null when there are no sessions or the write throws; otherwise the header and one row per listed session, in order |
| DataCollectionStorage.WriteCsv | app/src/main/java/com/mglvl/strana/datacollection/DataCollectionStorage.kt:87-104 | The writer block's loop writes exactly the header line and then one row per session, in order |
| DataCollectionStorage.QuotedRoundTrip | app/src/main/java/com/mglvl/strana/datacollection/DataCollectionStorage.kt:99-100 | A doubled-quote field, closed by a quote, reads back as the original text |
| DataCollectionStorage.RowParses | app/src/main/java/com/mglvl/strana/datacollection/DataCollectionStorage.kt:93-102 | A row, with an id free of comma, quote and newline, reads back as exactly its four fields |
| DataCollectionStorage.HeaderParses | app/src/main/java/com/mglvl/strana/datacollection/DataCollectionStorage.kt:89 | The header reads back as the four column names |
| DataCollectionStorage.CsvReadsBack | app/src/main/java/com/mglvl/strana/datacollection/DataCollectionStorage.kt:86-103 | The whole file reads back as the header and one record per session, in listing order |

## Left out

- Camera, recognition and tagging: the CameraX capture, ML Kit and the Stanford tagger are external. Their results are inputs.
- Lucene Hunspell's dictionary format is not modelled; `spell` and `suggest` are given functions.
- `StrangeWordConfig.getFreq` is called by the spell checker but is not defined in `camera/StrangeWordConfig.kt`; it is a given lookup.
- The network, Retrofit, Gson, files, `FileProvider`, intents and the Room database are I/O. Only the values they carry and the strings the export produces are modelled.
- `getSavedSessions` decodes with a given function, and a `Directory` value stands for the storage directory. `exportAllDataToCsv` returns the file's text instead of its URI.
- Concurrency is not modelled: the 5-second capture loop in `CameraActivity` and the asynchronous callbacks. Each callback is a separate synchronous step, and a definition arriving after a newer selection is not modelled.
- Floats: display geometry uses Dafny reals, with no rounding.
- `WordBoundingBoxOverlay.ScaleOf`, `WordBoundingBoxOverlay.OnTap`: the image size must be positive. The source divides by it and would produce infinities.
- Bitmap decoding, rotation and scaling (`camera/WordModel.kt`) are not modelled; a bitmap is an identifier.
- Unicode is not modelled. `lowercase()`, `trim()`, `\p{L}`, `[0-9]` and the word characters behind `\b` are their ASCII analogues.
- `DataCollectionComposables.GenerateCorrectedText`: requires every original word with a correction to be a non-empty literal pattern and every correction to be free of `$` and `\`. The source splices the word into a regex unescaped.
- `DataCollectionComposables.DataCollectionScreen.SaveResults`: inherits that precondition.
- `DataCollectionStorage.RowParses`, `DataCollectionStorage.CsvReadsBack`: need session ids free of comma, quote and newline. UUIDs always are, and the source only ever uses UUIDs.
- Rendering, layout, string resources, logging, the help dialog and the scroll hint are not modelled.
- Per-entry timestamps come from one `now` parameter. Session ids and times are parameters.
- API fields the reduction never reads are dropped: phonetics, licences, synonyms, antonyms.
- `WordModel.kt` declares a three-field `Word`. The model uses the six fields that `WordProcessor` constructs.
- `CameraComposables.InlineWord`: the camera screen builds `Word` with three named arguments. The defaults of the other fields are not visible, so the model uses no suggestion, spelled correctly, and no suggestions.
- The code has no length rule for strangeness and no table of word ranks. Single-letter words are not forced correct; they only get no suggestions.
- Rectangle containment follows Compose `Rect.contains`, which is half-open.
- The tag filter lists "RRB-" and "LRB-", not the tagger's "-RRB-" and "-LRB-". The model keeps the code's values.
- The `SpellChecker` constructor and `createSpellChecker`'s file handling are not modelled; a failed dictionary load is an input.
