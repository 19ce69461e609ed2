/** `camera/WordProcessor`: reconciles OCR element boxes with tagger tokens, spell-checks every
    token and drops the tokens that cannot be vocabulary. The tagger's output for the result's
    full text is an input, `tokens`. */
module WordProcessor {
  import opened Wrappers
  import opened Seqs
  import opened Chars
  import opened WordModel
  import SC = SpellChecker

  /** `wordBoundsMap[element.text] = bounds`, done only when the element has a box. */
  function Put(m: map<string, Rect>, e: Element): map<string, Rect> {
    match e.boundingBox
    case Some(b) => m[e.text := b]
    case None => m
  }

  /** The map `extractWordBounds` builds from the elements in block / line / element order. */
  function BoundsMap(es: seq<Element>): map<string, Rect>
    decreases |es|
  {
    if es == [] then map[] else Put(BoundsMap(es[..|es| - 1]), es[|es| - 1])
  }

  lemma BoundsMapSnoc(es: seq<Element>, e: Element)
    ensures BoundsMap(es + [e]) == Put(BoundsMap(es), e)
  {
    assert (es + [e])[..|es|] == es;
  }

  /** A text is a key exactly when some element with that text has a box. */
  lemma {:induction false} BoundsMapKeys(es: seq<Element>, k: string)
    ensures k in BoundsMap(es) <==> exists i :: 0 <= i < |es| && es[i].text == k && es[i].boundingBox.Some?
    decreases |es|
  {
    if es != [] {
      var init := es[..|es| - 1];
      BoundsMapKeys(init, k);
      if exists i :: 0 <= i < |es| && es[i].text == k && es[i].boundingBox.Some? {
        var i :| 0 <= i < |es| && es[i].text == k && es[i].boundingBox.Some?;
        if i < |es| - 1 {
          assert init[i] == es[i];
        }
      }
      if exists i :: 0 <= i < |init| && init[i].text == k && init[i].boundingBox.Some? {
        var i :| 0 <= i < |init| && init[i].text == k && init[i].boundingBox.Some?;
        assert es[i] == init[i];
      }
    }
  }

  /** Last occurrence wins: a key's box is that of the last element with this text and a box;
      elements after it with the same text have no box, so they did not erase it. */
  lemma {:induction false} BoundsMapLastWins(es: seq<Element>, k: string) returns (i: nat)
    requires k in BoundsMap(es)
    ensures i < |es| && es[i].text == k && es[i].boundingBox == Some(BoundsMap(es)[k])
    ensures forall j :: i < j < |es| && es[j].text == k ==> es[j].boundingBox.None?
    decreases |es|
  {
    var init := es[..|es| - 1];
    var last := es[|es| - 1];
    if last.text == k && last.boundingBox.Some? {
      i := |es| - 1;
    } else {
      assert k in BoundsMap(init);
      i := BoundsMapLastWins(init, k);
      assert es[i] == init[i];
      forall j | i < j < |es| && es[j].text == k ensures es[j].boundingBox.None? {
        if j < |es| - 1 {
          assert es[j] == init[j];
        }
      }
    }
  }

  /** The tags whose tokens are dropped: proper nouns and punctuation. */
  const ExcludedTags: set<string> := {"NNP", "NNPS", ",", ".", "HYPH", "``", "''", ":", "RRB-", "LRB-"}

  /** `contains(Regex("[0-9]"))`. */
  predicate ContainsDigit(s: string) {
    exists i :: 0 <= i < |s| && IsDigit(s[i])
  }

  /** The first filter: the tag is not excluded. */
  predicate TagKept(w: Word) {
    w.posTag !in ExcludedTags
  }

  /** The second filter: longer than two characters and free of digits. */
  predicate ShapeKept(w: Word) {
    |w.word| > 2 && !ContainsDigit(w.word)
  }

  /** Both filters, read on the token itself. */
  predicate Survives(t: Token) {
    t.tag !in ExcludedTags && |t.word| > 2 && !ContainsDigit(t.word)
  }

  /** The `Word` a token is mapped to: its text and tag, the exact-text box lookup, and the
      spell-check result for the same text. */
  function ToWord(checker: SC.SpellChecker, freq: SC.FrequencyLookup, bounds: map<string, Rect>, token: Token): (w: Word)
    ensures w.word == token.word && w.posTag == token.tag
    ensures w.bounds == if token.word in bounds then Some(bounds[token.word]) else None
    ensures w.isSpelledCorrectly == checker.IsSpelledCorrectly(token.word)
    ensures w.suggestions == checker.GetSuggestions(token.word)
    ensures w.spellcheckedWord == checker.GetBestSuggestion(token.word, freq)
  {
    var r := checker.CheckSpelling(token.word, freq);
    checker.CheckSpellingAgrees(token.word, freq);
    Word(
      word := token.word,
      spellcheckedWord := r.bestSuggestion,
      posTag := token.tag,
      bounds := if token.word in bounds then Some(bounds[token.word]) else None,
      isSpelledCorrectly := r.isCorrect,
      suggestions := r.suggestions)
  }

  /** The `map { … }.filter { … }.filter { … }` chain of `processTextRecognitionResult`. */
  function ProcessTokens(checker: SC.SpellChecker, freq: SC.FrequencyLookup, bounds: map<string, Rect>, tokens: seq<Token>): seq<Word> {
    Filter(Filter(Map(tokens, t => ToWord(checker, freq, bounds, t)), TagKept), ShapeKept)
  }

  /** The chain equals mapping the surviving tokens: filtering before or after spell-checking
      gives the same words. */
  lemma ProcessTokensIsMapOfSurvivors(checker: SC.SpellChecker, freq: SC.FrequencyLookup, bounds: map<string, Rect>, tokens: seq<Token>)
    ensures ProcessTokens(checker, freq, bounds, tokens) == Map(Filter(tokens, Survives), t => ToWord(checker, freq, bounds, t))
  {
    var f := t => ToWord(checker, freq, bounds, t);
    var tagTok := (t: Token) => t.tag !in ExcludedTags;
    var shapeTok := (t: Token) => |t.word| > 2 && !ContainsDigit(t.word);
    FilterMap(tokens, f, TagKept, tagTok);
    FilterMap(Filter(tokens, tagTok), f, ShapeKept, shapeTok);
    FilterFilter(tokens, tagTok, shapeTok, Survives);
  }

  /** The output is the order-preserving subsequence of the token stream made of exactly the
      surviving tokens, one `Word` per survivor (duplicates kept): `idx` lists their positions. */
  lemma ProcessTokensSpec(checker: SC.SpellChecker, freq: SC.FrequencyLookup, bounds: map<string, Rect>, tokens: seq<Token>)
    returns (idx: seq<nat>)
    ensures |idx| == |ProcessTokens(checker, freq, bounds, tokens)|
    ensures Increasing(idx)
    ensures forall k :: 0 <= k < |idx| ==>
      idx[k] < |tokens| && ProcessTokens(checker, freq, bounds, tokens)[k] == ToWord(checker, freq, bounds, tokens[idx[k]])
    ensures forall i :: 0 <= i < |tokens| ==> (i in idx <==> Survives(tokens[i]))
  {
    ProcessTokensIsMapOfSurvivors(checker, freq, bounds, tokens);
    var survivors := Filter(tokens, Survives);
    var words := ProcessTokens(checker, freq, bounds, tokens);
    assert |words| == |survivors|;
    idx := FilterIndices(tokens, Survives);
    forall k | 0 <= k < |idx|
      ensures idx[k] < |tokens| && words[k] == ToWord(checker, freq, bounds, tokens[idx[k]])
    {
      assert words[k] == ToWord(checker, freq, bounds, survivors[k]);
    }
  }

  /** Every word produced has a kept tag, more than two characters and no digit. */
  lemma ProcessedWordsAreKept(checker: SC.SpellChecker, freq: SC.FrequencyLookup, bounds: map<string, Rect>, tokens: seq<Token>, k: nat)
    requires k < |ProcessTokens(checker, freq, bounds, tokens)|
    ensures ProcessTokens(checker, freq, bounds, tokens)[k].posTag !in ExcludedTags
    ensures |ProcessTokens(checker, freq, bounds, tokens)[k].word| > 2
    ensures !ContainsDigit(ProcessTokens(checker, freq, bounds, tokens)[k].word)
  {
    var words := ProcessTokens(checker, freq, bounds, tokens);
    var tagged := Filter(Map(tokens, t => ToWord(checker, freq, bounds, t)), TagKept);
    assert words[k] in words;
    FilterMembership(tagged, ShapeKept, words[k]);
    FilterMembership(Map(tokens, t => ToWord(checker, freq, bounds, t)), TagKept, words[k]);
  }

  lemma AppendEmpty(es: seq<Element>)
    ensures es + [] == es
  {
  }

  lemma BoundsMapStep(before: seq<Element>, elements: seq<Element>, e: nat)
    requires e < |elements|
    ensures BoundsMap(before + elements[..e + 1]) == Put(BoundsMap(before + elements[..e]), elements[e])
  {
    assert before + elements[..e + 1] == (before + elements[..e]) + [elements[e]];
    BoundsMapSnoc(before + elements[..e], elements[e]);
  }

  lemma LineStep(done: seq<Element>, lines: seq<Line>, l: nat)
    requires l < |lines|
    ensures (done + LineElements(lines[..l])) + lines[l].elements[..|lines[l].elements|] == done + LineElements(lines[..l + 1])
  {
    assert lines[..l + 1][..l] == lines[..l];
    assert lines[l].elements[..|lines[l].elements|] == lines[l].elements;
  }

  lemma BlockStep(blocks: seq<Block>, b: nat)
    requires b < |blocks|
    ensures AllElements(blocks[..b]) + LineElements(blocks[b].lines[..|blocks[b].lines|]) == AllElements(blocks[..b + 1])
  {
    assert blocks[..b + 1][..b] == blocks[..b];
    assert blocks[b].lines[..|blocks[b].lines|] == blocks[b].lines;
  }

  /** `WordProcessor`, holding the shared spell checker and the frequency lookup it ranks by. */
  class WordProcessor {
    const spellChecker: SC.SpellChecker
    const freq: SC.FrequencyLookup

    constructor (spellChecker: SC.SpellChecker, freq: SC.FrequencyLookup)
      ensures this.spellChecker == spellChecker && this.freq == freq
    {
      this.spellChecker := spellChecker;
      this.freq := freq;
    }

    /** `extractWordBounds`: the nested loops over blocks, lines and elements. */
    static method ExtractWordBounds(result: Text) returns (m: map<string, Rect>)
      ensures m == BoundsMap(AllElements(result.textBlocks))
    {
      m := map[];
      var blocks := result.textBlocks;
      for b := 0 to |blocks|
        invariant m == BoundsMap(AllElements(blocks[..b]))
      {
        var lines := blocks[b].lines;
        ghost var done := AllElements(blocks[..b]);
        AppendEmpty(done);
        for l := 0 to |lines|
          invariant m == BoundsMap(done + LineElements(lines[..l]))
        {
          var elements := lines[l].elements;
          ghost var before := done + LineElements(lines[..l]);
          AppendEmpty(before);
          for e := 0 to |elements|
            invariant m == BoundsMap(before + elements[..e])
          {
            var element := elements[e];
            BoundsMapStep(before, elements, e);
            match element.boundingBox {
              case Some(bounds) =>
                m := m[element.text := bounds];
              case None =>
            }
          }
          LineStep(done, lines, l);
        }
        BlockStep(blocks, b);
      }
      assert blocks[..|blocks|] == blocks;
    }

    /** `processTextRecognitionResult`: the bounds map of `result`, then the token chain over
        the tagger's tokens of `result.text`. */
    method ProcessTextRecognitionResult(result: Text, tokens: seq<Token>) returns (words: seq<Word>)
      ensures words == ProcessTokens(spellChecker, freq, BoundsMap(AllElements(result.textBlocks)), tokens)
    {
      var wordBoundsMap := ExtractWordBounds(result);
      words := ProcessTokens(spellChecker, freq, wordBoundsMap, tokens);
    }
  }
}
