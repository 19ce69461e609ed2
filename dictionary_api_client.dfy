/** `dictionary/DictionaryApiClient`: reduces a dictionary API response for one word to the
    `WordDefinition` handed to the caller's callback. The HTTP call and JSON decoding are not
    modelled; the decoded response is an input. */
module DictionaryApiClient {
  import opened Wrappers
  import opened Seqs

  /** The decoded API records, with the fields the reduction reads. */
  datatype Definition = Definition(definition: string, example: Option<string>)
  datatype Meaning = Meaning(partOfSpeech: string, definitions: seq<Definition>)
  datatype DictionaryEntry = DictionaryEntry(word: string, meanings: seq<Meaning>)

  /** One definition with its part of speech. */
  datatype DefinitionItem = DefinitionItem(partOfSpeech: string, definition: string, example: Option<string>)

  /** The extracted information; `definitions == None` marks a word the API could not define. */
  datatype WordDefinition = WordDefinition(word: string, definitions: Option<seq<DefinitionItem>>)

  /** The getter `partOfSpeech`: the first item's part of speech, if there is a first item. */
  function PartOfSpeech(d: WordDefinition): (r: Option<string>)
    ensures r.None? <==> d.definitions.None? || d.definitions.value == []
    ensures r.Some? ==> r.value == d.definitions.value[0].partOfSpeech
  {
    match d.definitions
    case None => None
    case Some(items) => if items == [] then None else Some(items[0].partOfSpeech)
  }

  /** The getter `definition`: the first item's text, if there is a first item. */
  function DefinitionText(d: WordDefinition): (r: Option<string>)
    ensures r.None? <==> d.definitions.None? || d.definitions.value == []
    ensures r.Some? ==> r.value == d.definitions.value[0].definition
  {
    match d.definitions
    case None => None
    case Some(items) => if items == [] then None else Some(items[0].definition)
  }

  predicate HasDefinitions(m: Meaning) {
    m.definitions != []
  }

  /** The item a meaning with at least one definition contributes. */
  function FirstItem(m: Meaning): DefinitionItem
    requires HasDefinitions(m)
  {
    DefinitionItem(m.partOfSpeech, m.definitions[0].definition, m.definitions[0].example)
  }

  /** `meanings.flatMap { it.definitions.take(1).map { … } }`: one item per meaning that has a
      definition, in meaning order, built from that meaning's first definition. */
  function DefinitionItems(meanings: seq<Meaning>): (r: seq<DefinitionItem>)
    ensures |r| == |Filter(meanings, HasDefinitions)| <= |meanings|
    ensures forall i :: 0 <= i < |r| ==> r[i] == FirstItem(Filter(meanings, HasDefinitions)[i])
    decreases |meanings|
  {
    if meanings == [] then []
    else
      var m := meanings[0];
      var taken := if m.definitions == [] then [] else [FirstItem(m)];
      assert Filter(meanings, HasDefinitions) ==
        (if HasDefinitions(m) then [m] else []) + Filter(meanings[1..], HasDefinitions);
      taken + DefinitionItems(meanings[1..])
  }

  /** A delivered HTTP response: its status class and its decoded body (`null` when absent). */
  datatype Response = Response(isSuccessful: bool, body: Option<seq<DictionaryEntry>>)

  /** `onResponse`: a non-successful status (a 404 among them) gives the requested word with no
      definitions; a successful response without entries gives `null`; otherwise the first
      entry's word and items. */
  function OnResponse(word: string, response: Response): (r: Option<WordDefinition>)
    ensures !response.isSuccessful ==> r == Some(WordDefinition(word, None))
    ensures response.isSuccessful && (response.body.None? || response.body.value == []) ==> r.None?
    ensures response.isSuccessful && response.body.Some? && response.body.value != [] ==>
      r.Some? && r.value.word == response.body.value[0].word &&
      r.value.definitions == Some(DefinitionItems(response.body.value[0].meanings))
  {
    if response.isSuccessful then
      match response.body
      case Some(entries) =>
        if entries != [] then
          var entry := entries[0];
          Some(WordDefinition(word := entry.word, definitions := Some(DefinitionItems(entry.meanings))))
        else None
      case None => None
    else
      Some(WordDefinition(word := word, definitions := None))
  }

  /** `onFailure`: a transport error gives the requested word with no definitions. */
  function OnFailure(word: string): (r: WordDefinition)
    ensures r.word == word && r.definitions.None?
    ensures PartOfSpeech(r).None? && DefinitionText(r).None?
  {
    WordDefinition(word := word, definitions := None)
  }

  /** How the call ends: a delivered response, or a transport failure. */
  datatype CallOutcome = Delivered(response: Response) | TransportFailure

  /** What `getDefinition` passes to its callback. */
  function GetDefinition(word: string, outcome: CallOutcome): Option<WordDefinition> {
    match outcome
    case Delivered(response) => OnResponse(word, response)
    case TransportFailure => Some(OnFailure(word))
  }

  /** Only the first entry matters: bodies that agree on it give the same result. */
  lemma OnlyFirstEntryUsed(word: string, a: seq<DictionaryEntry>, b: seq<DictionaryEntry>)
    requires a != [] && b != [] && a[0] == b[0]
    ensures OnResponse(word, Response(true, Some(a))) == OnResponse(word, Response(true, Some(b)))
  {
  }

  /** For a found entry, the `definition` getter is the first definition of the first meaning
      that has one, and is null exactly when no meaning has a definition. */
  lemma {:induction false} DefinitionTextOfEntry(word: string, entry: DictionaryEntry, rest: seq<DictionaryEntry>)
    ensures var d := OnResponse(word, Response(true, Some([entry] + rest))).value;
      var k := FirstIndex(entry.meanings, HasDefinitions);
      (DefinitionText(d).None? <==> k == |entry.meanings|) &&
      (k < |entry.meanings| ==> DefinitionText(d) == Some(entry.meanings[k].definitions[0].definition))
  {
    var ms := entry.meanings;
    var k := FirstIndex(ms, HasDefinitions);
    FirstIndexFilter(ms, HasDefinitions, m => true, HasDefinitions);
    var f := Filter(ms, HasDefinitions);
    assert FirstIndex(f, m => true) == 0 || f == [];
    assert ([entry] + rest)[0] == entry;
  }

  /** A non-successful response and a transport failure both reach the callback as the requested
      word with a null `definition`, which the card shows as not found. */
  lemma NotFoundWhenUnsuccessful(word: string, outcome: CallOutcome)
    requires outcome.TransportFailure? || !outcome.response.isSuccessful
    ensures GetDefinition(word, outcome).Some?
    ensures GetDefinition(word, outcome).value.word == word
    ensures DefinitionText(GetDefinition(word, outcome).value).None?
  {
  }
}
