/** `CameraActivity`: the periodic-capture screen. It holds its own common-word list (whole lines,
    the first 25000), splits recognised text into lower-case words, lists up to fifteen distinct
    strange words, and keeps a cache of their definitions. The capture loop and the
    asynchronous callbacks are not modelled: their results arrive as arguments. */
module CameraActivity {
  import opened Wrappers
  import opened Seqs
  import opened Chars
  import SWC = StrangeWordConfig
  import opened DictionaryApiClient

  /** This object's `TOP_WORDS_COUNT`. */
  const TOP_WORDS_COUNT: nat := 25000

  /** The word a line contributes here: the whole line, trimmed and lower-cased. */
  function WholeLineWord(line: string): string {
    Lower(Trim(line))
  }

  /** The `StrangeWordConfig` object declared in this file. */
  class StrangeWordConfig {
    var commonWords: set<string>
    var isInitialized: bool

    constructor ()
      ensures commonWords == {} && !isInitialized
    {
      commonWords := {};
      isInitialized := false;
    }

    /** `isStrange`: the lower-cased word is not common. */
    predicate IsStrange(word: string)
      reads this
    {
      SWC.IsStrangeIn(commonWords, word)
    }

    /** `initialize`: a no-op once initialised; otherwise adds the words of the first
        `TOP_WORDS_COUNT` lines. `readError` says the stream throws after `lines`; the words
        added so far stay, the object stays uninitialised and the error is rethrown. */
    method Initialize(lines: seq<string>, readError: bool) returns (r: Outcome<SWC.LoadError>)
      modifies this
      ensures old(isInitialized) ==> r == Pass && isInitialized && commonWords == old(commonWords)
      ensures !old(isInitialized) ==>
        commonWords == old(commonWords) + SWC.CommonWordsBy(lines[..Min(|lines|, TOP_WORDS_COUNT)], WholeLineWord)
      ensures !old(isInitialized) ==> isInitialized == !readError && (r == Fail(SWC.WordListUnreadable) <==> readError)
      ensures |commonWords| <= |old(commonWords)| + TOP_WORDS_COUNT
    {
      if isInitialized {
        return Pass;
      }
      var count := 0;
      for i := 0 to |lines|
        invariant count == Min(i, TOP_WORDS_COUNT)
        invariant commonWords == old(commonWords) + SWC.CommonWordsBy(lines[..count], WholeLineWord)
        invariant !isInitialized
      {
        if count < TOP_WORDS_COUNT {
          assert lines[..count + 1][..count] == lines[..count];
          commonWords := commonWords + {WholeLineWord(lines[i])};
          count := count + 1;
        }
      }
      SWC.CommonWordsBySize(lines[..count], WholeLineWord);
      if readError {
        return Fail(SWC.WordListUnreadable);
      }
      isInitialized := true;
      return Pass;
    }
  }

  /** The characters `[^\p{L}']` does not match: letters and the apostrophe. */
  predicate IsWordPart(c: char) {
    IsLetter(c) || c == '\''
  }

  /** The text cut at every separator character. Cutting at maximal runs of separators, as the
      regex does, differs only by empty fields, which the caller drops. */
  function Fields(s: string): (r: seq<string>)
    ensures |r| >= 1
    decreases |s|
  {
    if s == [] then [""]
    else
      var rest := Fields(s[1..]);
      if IsWordPart(s[0]) then [[s[0]] + rest[0]] + rest[1..] else [""] + rest
  }

  predicate NonEmpty(w: string) {
    w != []
  }

  /** `split(Regex("[^\\p{L}']+")).filter { it.isNotEmpty() }.map { it.lowercase() }`. */
  function SplitWords(text: string): seq<string> {
    Map(Filter(Fields(text), NonEmpty), Lower)
  }

  /** The words joined together. */
  function Concat(ws: seq<string>): string
    decreases |ws|
  {
    if ws == [] then [] else ws[0] + Concat(ws[1..])
  }

  lemma {:induction false} FieldsConcat(s: string)
    ensures Concat(Fields(s)) == Filter(s, IsWordPart)
    decreases |s|
  {
    if s != [] {
      FieldsConcat(s[1..]);
      var rest := Fields(s[1..]);
      assert Concat(rest) == rest[0] + Concat(rest[1..]);
      if IsWordPart(s[0]) {
        var r := [[s[0]] + rest[0]] + rest[1..];
        assert r[1..] == rest[1..];
      } else {
        assert ([""] + rest)[1..] == rest;
      }
    }
  }

  lemma {:induction false} FieldsOnlyWordParts(s: string)
    ensures forall k, j :: 0 <= k < |Fields(s)| && 0 <= j < |Fields(s)[k]| ==> IsWordPart(Fields(s)[k][j])
    decreases |s|
  {
    if s != [] {
      FieldsOnlyWordParts(s[1..]);
      var rest := Fields(s[1..]);
      if IsWordPart(s[0]) {
        var r := [[s[0]] + rest[0]] + rest[1..];
        forall k, j | 0 <= k < |r| && 0 <= j < |r[k]| ensures IsWordPart(r[k][j]) {
          if k == 0 {
            if j > 0 {
              assert r[0][j] == rest[0][j - 1];
            }
          } else {
            assert r[k] == rest[k];
          }
        }
      } else {
        var r := [""] + rest;
        forall k, j | 0 <= k < |r| && 0 <= j < |r[k]| ensures IsWordPart(r[k][j]) {
          assert r[k] == rest[k - 1];
        }
      }
    }
  }

  lemma {:induction false} ConcatDropsEmpty(ws: seq<string>)
    ensures Concat(Filter(ws, NonEmpty)) == Concat(ws)
    decreases |ws|
  {
    if ws != [] {
      ConcatDropsEmpty(ws[1..]);
      if NonEmpty(ws[0]) {
        assert Filter(ws, NonEmpty) == [ws[0]] + Filter(ws[1..], NonEmpty);
        assert ([ws[0]] + Filter(ws[1..], NonEmpty))[1..] == Filter(ws[1..], NonEmpty);
      } else {
        assert ws[0] == [];
      }
    }
  }

  lemma {:induction false} ConcatLower(ws: seq<string>)
    ensures Concat(Map(ws, Lower)) == Lower(Concat(ws))
    decreases |ws|
  {
    if ws != [] {
      ConcatLower(ws[1..]);
      assert Map(ws, Lower)[1..] == Map(ws[1..], Lower);
      assert Lower(ws[0] + Concat(ws[1..])) == Lower(ws[0]) + Lower(Concat(ws[1..]));
    }
  }

  /** The length of the run of letters and apostrophes that starts the string: every character
      before it is a word part, and the run ends at the end of the string or at a separator. */
  function RunLength(s: string): (n: nat)
    ensures n <= |s|
    ensures forall i :: 0 <= i < n ==> IsWordPart(s[i])
    ensures n == |s| || !IsWordPart(s[n])
    decreases |s|
  {
    if s == [] || !IsWordPart(s[0]) then 0 else 1 + RunLength(s[1..])
  }

  /** The maximal runs of letters and apostrophes of the text, in text order: an independent
      reading of what the regex split keeps. */
  function Runs(s: string): (r: seq<string>)
    ensures forall k :: 0 <= k < |r| ==> r[k] != []
    decreases |s|
  {
    if s == [] then []
    else if !IsWordPart(s[0]) then Runs(s[1..])
    else
      var n := RunLength(s);
      [s[..n]] + Runs(s[n..])
  }

  /** The first field is the leading run, and the remaining fields are those after the run. */
  lemma {:induction false} FieldsRun(s: string)
    ensures Fields(s)[0] == s[..RunLength(s)]
    ensures Fields(s)[1..] == Fields(s[RunLength(s)..])[1..]
    decreases |s|
  {
    if s != [] && IsWordPart(s[0]) {
      FieldsRun(s[1..]);
      var m := RunLength(s[1..]);
      assert s[1..][m..] == s[m + 1..];
      assert s[..m + 1] == [s[0]] + s[1..][..m];
    }
  }

  /** Dropping the empty fields leaves exactly the maximal runs. */
  lemma {:induction false} FieldsAreRuns(s: string)
    ensures Filter(Fields(s), NonEmpty) == Runs(s)
    decreases |s|
  {
    if s != [] {
      if !IsWordPart(s[0]) {
        FieldsAreRuns(s[1..]);
        assert Fields(s) == [""] + Fields(s[1..]);
        assert (["" ] + Fields(s[1..]))[1..] == Fields(s[1..]);
      } else {
        var n := RunLength(s);
        var t := s[n..];
        FieldsRun(s);
        FieldsAreRuns(t);
        var fs := Fields(s);
        assert fs == [fs[0]] + fs[1..];
        FieldsRun(t);
        assert Fields(t)[0] == [];
        assert Filter(Fields(t), NonEmpty) == Filter(Fields(t)[1..], NonEmpty);
      }
    }
  }

  /** The words are non-empty, made of letters and apostrophes only, lower-case, and together they
      are the text's letters and apostrophes in text order, lower-cased; word by word they are the
      text's maximal runs of letters and apostrophes, lower-cased. */
  lemma SplitWordsSpec(text: string)
    ensures SplitWords(text) == Map(Runs(text), Lower)
    ensures forall k :: 0 <= k < |SplitWords(text)| ==> SplitWords(text)[k] != []
    ensures forall k, j :: 0 <= k < |SplitWords(text)| && 0 <= j < |SplitWords(text)[k]| ==>
      IsWordPart(SplitWords(text)[k][j]) && !('A' <= SplitWords(text)[k][j] <= 'Z')
    ensures Concat(SplitWords(text)) == Lower(Filter(text, IsWordPart))
  {
    var fields := Fields(text);
    var kept := Filter(fields, NonEmpty);
    FieldsOnlyWordParts(text);
    forall k, j | 0 <= k < |kept| && 0 <= j < |kept[k]| ensures IsWordPart(kept[k][j]) {
      FilterMembership(fields, NonEmpty, kept[k]);
      var m :| 0 <= m < |fields| && fields[m] == kept[k];
    }
    FieldsConcat(text);
    ConcatDropsEmpty(fields);
    ConcatLower(kept);
    FieldsAreRuns(text);
  }

  /** The success listener calls `onWordsRecognized` only with a non-empty list. */
  function OnTextRecognized(text: string): (callback: Option<seq<string>>)
    ensures callback.Some? <==> SplitWords(text) != []
    ensures callback.Some? ==> callback.value == SplitWords(text)
  {
    var words := SplitWords(text);
    if words != [] then Some(words) else None
  }

  /** `STRANGE_WORDS_LIMIT`. */
  const STRANGE_WORDS_LIMIT: nat := 15

  /** `filter { isStrange(it) }.take(15).distinct()`. */
  function StrangeWords(recognizedWords: seq<string>, commonWords: set<string>): (r: seq<string>)
    ensures |r| <= STRANGE_WORDS_LIMIT
    ensures NoDuplicates(r)
    ensures forall i :: 0 <= i < |r| ==> SWC.IsStrangeIn(commonWords, r[i]) && r[i] in recognizedWords
  {
    var isStrange := w => SWC.IsStrangeIn(commonWords, w);
    var strange := Filter(recognizedWords, isStrange);
    var firstStrange := strange[..Min(|strange|, STRANGE_WORDS_LIMIT)];
    var r := Distinct(firstStrange);
    assert forall i :: 0 <= i < |r| ==> r[i] in strange;
    FilterMembershipAll(recognizedWords, isStrange);
    r
  }

  /** The list holds each of the first fifteen strange words once, in order of first occurrence. */
  lemma StrangeWordsAreFirstFifteen(recognizedWords: seq<string>, commonWords: set<string>)
    ensures var strange := Filter(recognizedWords, w => SWC.IsStrangeIn(commonWords, w));
      var firstStrange := strange[..Min(|strange|, STRANGE_WORDS_LIMIT)];
      var r := StrangeWords(recognizedWords, commonWords);
      (forall i :: 0 <= i < |firstStrange| ==> firstStrange[i] in r) &&
      (forall i :: 0 <= i < |r| ==> r[i] in firstStrange) &&
      (forall i, j :: 0 <= i < j < |r| ==> IndexOf(firstStrange, r[i]) < IndexOf(firstStrange, r[j]))
  {
    var strange := Filter(recognizedWords, w => SWC.IsStrangeIn(commonWords, w));
    var firstStrange := strange[..Min(|strange|, STRANGE_WORDS_LIMIT)];
    DistinctFirstOccurrenceOrder(firstStrange);
  }

  /** What the card under each strange word shows: a loading indicator until the definition
      arrives, then the part of speech if any and the definition text or a fallback. */
  datatype CardContent = Loading | Shown(partOfSpeech: Option<string>, text: string)

  const NO_DEFINITION: string := "No definition found"

  function CardContentOf(definition: Option<WordDefinition>): (c: CardContent)
    ensures c == Loading <==> definition.None?
    ensures c.Shown? ==> c.partOfSpeech == PartOfSpeech(definition.value)
    ensures c.Shown? && DefinitionText(definition.value).Some? ==> c.text == DefinitionText(definition.value).value
    ensures c.Shown? ==> (c.text == NO_DEFINITION <==> DefinitionText(definition.value).None? || DefinitionText(definition.value) == Some(NO_DEFINITION))
  {
    match definition
    case None => Loading
    case Some(d) => Shown(PartOfSpeech(d), DefinitionText(d).GetOr(NO_DEFINITION))
  }

  /** The `wordDefinitions` cache of `WordsAndDefinitionsArea`: `None` marks a fetch in flight. */
  class DefinitionsArea {
    var wordDefinitions: map<string, Option<WordDefinition>>

    constructor ()
      ensures wordDefinitions == map[]
    {
      wordDefinitions := map[];
    }

    /** The effect over `strangeWords`: a word not yet cached is entered as loading and its
        definition is requested; cached entries are left alone. `requested` lists the fetches. */
    method FetchDefinitions(strangeWords: seq<string>) returns (requested: seq<string>)
      modifies this
      ensures wordDefinitions.Keys == old(wordDefinitions).Keys + (set i | 0 <= i < |strangeWords| :: strangeWords[i])
      ensures forall k :: k in old(wordDefinitions) ==> wordDefinitions[k] == old(wordDefinitions)[k]
      ensures forall k :: k in wordDefinitions && k !in old(wordDefinitions) ==> wordDefinitions[k].None?
      ensures forall i :: 0 <= i < |requested| ==> requested[i] in strangeWords && requested[i] !in old(wordDefinitions)
      ensures forall i :: 0 <= i < |strangeWords| && strangeWords[i] !in old(wordDefinitions) ==> strangeWords[i] in requested
      ensures NoDuplicates(requested)
    {
      requested := [];
      for i := 0 to |strangeWords|
        invariant wordDefinitions.Keys == old(wordDefinitions).Keys + (set j | 0 <= j < i :: strangeWords[j])
        invariant forall k :: k in old(wordDefinitions) ==> wordDefinitions[k] == old(wordDefinitions)[k]
        invariant forall k :: k in wordDefinitions && k !in old(wordDefinitions) ==> wordDefinitions[k].None?
        invariant forall j :: 0 <= j < |requested| ==> requested[j] in strangeWords[..i] && requested[j] !in old(wordDefinitions)
        invariant forall j :: 0 <= j < i && strangeWords[j] !in old(wordDefinitions) ==> strangeWords[j] in requested
        invariant forall j :: 0 <= j < |requested| ==> requested[j] in wordDefinitions
        invariant NoDuplicates(requested)
      {
        var word := strangeWords[i];
        if word !in wordDefinitions {
          wordDefinitions := wordDefinitions[word := None];
          requested := requested + [word];
        }
        assert (set j | 0 <= j < i + 1 :: strangeWords[j]) == (set j | 0 <= j < i :: strangeWords[j]) + {word};
        assert forall j :: 0 <= j < |requested| ==> requested[j] in strangeWords[..i + 1] by {
          forall j | 0 <= j < |requested| ensures requested[j] in strangeWords[..i + 1] {
            if requested[j] in strangeWords[..i] {
              var m :| 0 <= m < i && strangeWords[m] == requested[j];
              assert strangeWords[..i + 1][m] == requested[j];
            } else {
              assert strangeWords[..i + 1][i] == word;
            }
          }
        }
      }
      assert strangeWords[..|strangeWords|] == strangeWords;
    }

    /** A definition callback: only its own word's entry changes. */
    method OnDefinition(word: string, definition: Option<WordDefinition>)
      modifies this
      ensures wordDefinitions == old(wordDefinitions)[word := definition]
      ensures forall k :: k in old(wordDefinitions) && k != word ==> wordDefinitions[k] == old(wordDefinitions)[k]
    {
      wordDefinitions := wordDefinitions[word := definition];
    }

    /** The card shown for one strange word. */
    /** The card under `word`: loading until its entry holds a definition, then that entry's text. */
    function CardFor(word: string): (c: CardContent)
      reads this
      ensures c == Loading <==> word !in wordDefinitions || wordDefinitions[word].None?
      ensures c.Shown? && DefinitionText(wordDefinitions[word].value).Some? ==>
        c.text == DefinitionText(wordDefinitions[word].value).value
    {
      CardContentOf(if word in wordDefinitions then wordDefinitions[word] else None)
    }
  }

  /** After the effect, every strange word's card shows a loading indicator or a definition that
      was already cached. */
  method FetchThenShow(area: DefinitionsArea, strangeWords: seq<string>, word: string) returns (c: CardContent)
    requires word in strangeWords && word !in area.wordDefinitions
    modifies area
    ensures c == Loading
  {
    var _ := area.FetchDefinitions(strangeWords);
    c := area.CardFor(word);
  }
}
