/** `SpellChecker`: spelling verdicts and suggestions from a Hunspell dictionary, the best
    suggestion ranked by corpus frequency, and its lazily created process-wide instance. */
module SpellChecker {
  import opened Wrappers
  import opened Seqs

  /** The Lucene Hunspell collaborator: `spell(word)` and `suggest(word)`. */
  datatype Hunspell = Hunspell(spell: string -> bool, suggest: string -> seq<string>)

  /** Kotlin's `SpellCheckResult`. */
  datatype SpellCheckResult = SpellCheckResult(
    word: string,
    isCorrect: bool,
    suggestions: seq<string>,
    bestSuggestion: Option<string>)

  /** The exception `createSpellChecker` rethrows when the dictionary cannot be loaded. */
  datatype InitError = DictionaryLoadFailed

  /** The frequency lookup a suggestion is ranked by, `StrangeWordConfig.getFreq`. */
  type FrequencyLookup = string -> Option<int>

  /** `getFreq(w) ?: 0`: a word missing from the frequency table counts as 0. */
  function FrequencyOrZero(freq: FrequencyLookup, w: string): int {
    freq(w).GetOr(0)
  }

  /** `if (suggestions.isNotEmpty()) suggestions.maxBy { getFreq(it) ?: 0 } else null`: the
      earliest suggestion of maximal frequency, or nothing when there are no suggestions. */
  function MostFrequent(suggestions: seq<string>, freq: FrequencyLookup): (r: Option<string>)
    ensures r.Some? <==> suggestions != []
    ensures r.Some? ==> r.value in suggestions
    ensures r.Some? ==> forall i :: 0 <= i < |suggestions| ==>
      FrequencyOrZero(freq, suggestions[i]) <= FrequencyOrZero(freq, r.value)
    ensures r.Some? ==> forall i :: 0 <= i < |suggestions| ==>
      (FrequencyOrZero(freq, suggestions[i]) == FrequencyOrZero(freq, r.value) ==> r.value in suggestions[..i + 1])
  {
    if suggestions == [] then None
    else
      var k := MaxByIndex(suggestions, w => FrequencyOrZero(freq, w));
      assert suggestions[..k + 1][k] == suggestions[k];
      Some(suggestions[k])
  }

  /** A spell checker over one Hunspell instance. */
  class SpellChecker {
    const hunspell: Hunspell

    /** The private constructor `createSpellChecker` calls once the dictionary is loaded. */
    constructor (hunspell: Hunspell)
      ensures this.hunspell == hunspell
    {
      this.hunspell := hunspell;
    }

    /** `isSpelledCorrectly`: the dictionary's verdict. */
    predicate IsSpelledCorrectly(word: string) {
      hunspell.spell(word)
    }

    /** `getSuggestions`: nothing for a word of at most one character or a correct word,
        otherwise the dictionary's suggestions as it lists them. */
    function GetSuggestions(word: string): (r: seq<string>)
      ensures |word| <= 1 ==> r == []
      ensures IsSpelledCorrectly(word) ==> r == []
      ensures |word| > 1 && !IsSpelledCorrectly(word) ==> r == hunspell.suggest(word)
    {
      if |word| <= 1 || IsSpelledCorrectly(word) then [] else hunspell.suggest(word)
    }

    /** `getBestSuggestion`: present exactly when there are suggestions, and then the first of
        them with the highest frequency. */
    function GetBestSuggestion(word: string, freq: FrequencyLookup): (r: Option<string>)
      ensures r.Some? <==> GetSuggestions(word) != []
      ensures r.Some? ==> r.value in GetSuggestions(word)
      ensures r.Some? ==> forall s :: s in GetSuggestions(word) ==>
        FrequencyOrZero(freq, s) <= FrequencyOrZero(freq, r.value)
    {
      MostFrequent(GetSuggestions(word), freq)
    }

    /** `checkSpelling`: the verdict, the suggestions (only for an incorrect word) and the most
        frequent suggestion, for the word asked about. */
    function CheckSpelling(word: string, freq: FrequencyLookup): (r: SpellCheckResult)
      ensures r.word == word
      ensures r.isCorrect == IsSpelledCorrectly(word)
      ensures r.isCorrect ==> r.suggestions == [] && r.bestSuggestion == None
      ensures r.bestSuggestion.Some? <==> r.suggestions != []
      ensures r.bestSuggestion.Some? ==> r.bestSuggestion.value in r.suggestions
    {
      var isCorrect := IsSpelledCorrectly(word);
      var suggestions := if !isCorrect then GetSuggestions(word) else [];
      var bestSuggestion := MostFrequent(suggestions, freq);
      SpellCheckResult(word, isCorrect, suggestions, bestSuggestion)
    }

    /** `checkSpelling` agrees with the separate queries: same suggestions and same best
        suggestion as `getSuggestions` and `getBestSuggestion`. */
    lemma CheckSpellingAgrees(word: string, freq: FrequencyLookup)
      ensures CheckSpelling(word, freq).suggestions == GetSuggestions(word)
      ensures CheckSpelling(word, freq).bestSuggestion == GetBestSuggestion(word, freq)
    {
    }

    /** A one-character word gets no suggestion even when the dictionary rejects it. */
    lemma ShortWordNoSuggestion(word: string, freq: FrequencyLookup)
      requires |word| <= 1
      ensures CheckSpelling(word, freq).suggestions == []
      ensures CheckSpelling(word, freq).bestSuggestion == None
    {
    }

    /** No suggestion is strictly more frequent than the best one. */
    lemma BestIsMostFrequent(word: string, freq: FrequencyLookup, s: string)
      requires s in CheckSpelling(word, freq).suggestions
      ensures CheckSpelling(word, freq).bestSuggestion.Some?
      ensures FrequencyOrZero(freq, s) <= FrequencyOrZero(freq, CheckSpelling(word, freq).bestSuggestion.value)
    {
    }
  }

  /** The companion object holding the lazily created instance. */
  class Companion {
    var instance: SpellChecker?

    constructor ()
      ensures instance == null
    {
      instance := null;
    }

    /** `getInstance`: creates the checker on the first call (from `dictionary`, the loaded
        Hunspell data, or `None` when loading throws) and returns the same object ever after. */
    method GetInstance(dictionary: Option<Hunspell>) returns (r: Result<SpellChecker, InitError>)
      modifies this
      ensures old(instance) != null ==> r == Success(old(instance)) && instance == old(instance)
      ensures old(instance) == null && dictionary.Some? ==>
        r.Success? && fresh(r.value) && r.value.hunspell == dictionary.value && instance == r.value
      ensures old(instance) == null && dictionary.None? ==> r == Failure(DictionaryLoadFailed) && instance == null
    {
      if instance == null {
        match dictionary {
          case None =>
            return Failure(DictionaryLoadFailed);
          case Some(h) =>
            instance := new SpellChecker(h);
        }
      }
      return Success(instance);
    }
  }

  /** A second `getInstance` returns the object the first one created, whatever it is given. */
  method GetInstanceTwice(c: Companion, first: Option<Hunspell>, second: Option<Hunspell>)
    returns (a: Result<SpellChecker, InitError>, b: Result<SpellChecker, InitError>)
    modifies c
    ensures a.Success? ==> b == a
    ensures old(c.instance) == null && first.Some? ==> a.Success? && fresh(a.value)
  {
    a := c.GetInstance(first);
    b := c.GetInstance(second);
  }
}
