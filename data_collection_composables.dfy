/** `datacollection/DataCollectionComposables`: building and editing the collected data of one
    scan, the corrected full text, and the screen's reset and save rules. Rendering, dialogs'
    layout and the camera preview are not modelled. */
module DataCollectionComposables {
  import opened Wrappers
  import opened Seqs
  import opened Chars
  import opened WordModel
  import opened CollectedWordData
  import Overlay = WordBoundingBoxOverlay

  // ---------------------------------------------------------------------------------------------
  // Collected data

  /** The entry the capture callback makes for a recognised word: no mark, the spell checker's
      suggestion as the correction, and the word's bounds and tag. */
  function InitialEntry(w: Word, now: int): CollectedWordData {
    CollectedWordData(w.word, w.spellcheckedWord, false, w.bounds, Some(w.posTag), now)
  }

  /** `words.map { CollectedWordData(…) }`: one entry per recognised word, in order. */
  function InitialCollectedData(words: seq<Word>, now: int): (r: seq<CollectedWordData>)
    ensures |r| == |words|
    ensures forall i :: 0 <= i < |r| ==>
      r[i].originalWord == words[i].word && r[i].correctedWord == words[i].spellcheckedWord &&
      !r[i].isMarkedStrange && r[i].bounds == words[i].bounds && r[i].posTag == Some(words[i].posTag)
  {
    Map(words, w => InitialEntry(w, now))
  }

  /** `onDataChanged`: every entry for `selected` is replaced by `updated`. */
  function UpdateCollected(data: seq<CollectedWordData>, selected: string, updated: CollectedWordData): (r: seq<CollectedWordData>)
    ensures |r| == |data|
    ensures forall i :: 0 <= i < |r| ==> r[i] == if data[i].originalWord == selected then updated else data[i]
  {
    Map(data, (d: CollectedWordData) => if d.originalWord == selected then updated else d)
  }

  /** `find { it.originalWord == word }`. */
  function FindCollected(data: seq<CollectedWordData>, word: string): (r: Option<CollectedWordData>)
    ensures r.Some? <==> exists i :: 0 <= i < |data| && data[i].originalWord == word
    ensures r.Some? ==> r.value.originalWord == word && r.value in data
    ensures r.Some? ==> exists k :: (0 <= k < |data| && data[k] == r.value &&
      forall j :: 0 <= j < k ==> data[j].originalWord != word)
  {
    var k := FirstIndex(data, (d: CollectedWordData) => d.originalWord == word);
    if k < |data| then Some(data[k]) else None
  }

  /** After an edit, the editor reopened on the same word finds the data it emitted. */
  lemma FindAfterUpdate(data: seq<CollectedWordData>, selected: string, updated: CollectedWordData)
    requires updated.originalWord == selected
    requires exists i :: 0 <= i < |data| && data[i].originalWord == selected
    ensures FindCollected(UpdateCollected(data, selected, updated), selected) == Some(updated)
  {
    var r := UpdateCollected(data, selected, updated);
    var i :| 0 <= i < |data| && data[i].originalWord == selected;
    assert r[i].originalWord == selected;
    var k := FirstIndex(r, (d: CollectedWordData) => d.originalWord == selected);
    assert r[k] == updated;
  }

  /** Replacing with the same data again changes nothing. */
  lemma UpdateIdempotent(data: seq<CollectedWordData>, selected: string, updated: CollectedWordData)
    requires updated.originalWord == selected
    ensures UpdateCollected(UpdateCollected(data, selected, updated), selected, updated) == UpdateCollected(data, selected, updated)
  {
  }

  // ---------------------------------------------------------------------------------------------
  // The word editor

  /** The editor's initial text: the stored correction, else the suggestion, else the word. */
  function InitialEditorText(word: Word, collectedData: Option<CollectedWordData>): string {
    if collectedData.Some? && collectedData.value.correctedWord.Some? then collectedData.value.correctedWord.value
    else word.spellcheckedWord.GetOr(word.word)
  }

  /** The checkbox's initial state. */
  function InitialEditorMark(collectedData: Option<CollectedWordData>): bool {
    collectedData.Some? && collectedData.value.isMarkedStrange
  }

  /** The data the editor emits on a change: a correction only when the text differs from the
      recognised word. */
  function EditedData(word: Word, correctedText: string, isMarkedStrange: bool, now: int): (d: CollectedWordData)
    ensures d.originalWord == word.word && d.isMarkedStrange == isMarkedStrange
    ensures d.correctedWord.None? <==> correctedText == word.word
    ensures d.correctedWord.Some? ==> d.correctedWord.value == correctedText
    ensures d.bounds == word.bounds && d.posTag == Some(word.posTag)
  {
    CollectedWordData(word.word, if correctedText != word.word then Some(correctedText) else None,
      isMarkedStrange, word.bounds, Some(word.posTag), now)
  }

  /** Reopening the editor on what it emitted shows the same text and mark, except when the text
      was set back to the recognised word and the word has a different suggestion: the editor
      then starts from the suggestion again. */
  lemma EditorRoundTrip(word: Word, correctedText: string, isMarkedStrange: bool, now: int)
    ensures InitialEditorMark(Some(EditedData(word, correctedText, isMarkedStrange, now))) == isMarkedStrange
    ensures InitialEditorText(word, Some(EditedData(word, correctedText, isMarkedStrange, now))) == correctedText <==>
      correctedText != word.word || word.spellcheckedWord.None? || word.spellcheckedWord.value == word.word
  {
  }

  // ---------------------------------------------------------------------------------------------
  // Corrections in order of descending length

  function Len(d: CollectedWordData): nat {
    |d.originalWord|
  }

  ghost predicate NonIncreasing(s: seq<CollectedWordData>) {
    forall i, j :: 0 <= i < j < |s| ==> Len(s[i]) >= Len(s[j])
  }

  function HasLen(n: nat): CollectedWordData -> bool {
    d => Len(d) == n
  }

  /** Inserts `x` after every element at least as long: the later of two equally long entries
      stays later. */
  function InsertDesc(r: seq<CollectedWordData>, x: CollectedWordData): seq<CollectedWordData>
    decreases |r|
  {
    if r == [] then [x]
    else if Len(r[|r| - 1]) >= Len(x) then r + [x]
    else InsertDesc(r[..|r| - 1], x) + [r[|r| - 1]]
  }

  /** `sortedByDescending { it.originalWord.length }`, a stable sort. */
  function SortedByDescendingLength(s: seq<CollectedWordData>): seq<CollectedWordData>
    decreases |s|
  {
    if s == [] then [] else InsertDesc(SortedByDescendingLength(s[..|s| - 1]), s[|s| - 1])
  }

  /** Where `InsertDesc` puts `x`: after a prefix, and before elements all shorter than it. */
  lemma {:induction false} InsertSplit(r: seq<CollectedWordData>, x: CollectedWordData) returns (k: nat)
    requires NonIncreasing(r)
    ensures k <= |r| && InsertDesc(r, x) == r[..k] + [x] + r[k..]
    ensures forall j :: k <= j < |r| ==> Len(r[j]) < Len(x)
    ensures forall j :: 0 <= j < k ==> Len(r[j]) >= Len(x)
    decreases |r|
  {
    if r == [] {
      k := 0;
    } else if Len(r[|r| - 1]) >= Len(x) {
      k := |r|;
      InsertAfterLast(r, x);
    } else {
      var init := r[..|r| - 1];
      NonIncreasingInit(r);
      k := InsertSplit(init, x);
      assert r == init + [r[|r| - 1]];
      InsertBeforeLast(r, init, r[|r| - 1], x, k);
    }
  }

  /** `x` no longer than the last element goes at the end. */
  lemma InsertAfterLast(r: seq<CollectedWordData>, x: CollectedWordData)
    requires r != [] && NonIncreasing(r) && Len(r[|r| - 1]) >= Len(x)
    ensures InsertDesc(r, x) == r[..|r|] + [x] + r[|r|..]
    ensures forall j :: 0 <= j < |r| ==> Len(r[j]) >= Len(x)
  {
    assert r[..|r|] == r && r[|r|..] == [];
    forall j | 0 <= j < |r| ensures Len(r[j]) >= Len(x) {
      if j < |r| - 1 {
        assert Len(r[j]) >= Len(r[|r| - 1]);
      }
    }
  }

  /** Dropping the last element keeps the order. */
  lemma NonIncreasingInit(r: seq<CollectedWordData>)
    requires r != [] && NonIncreasing(r)
    ensures NonIncreasing(r[..|r| - 1])
  {
    var init := r[..|r| - 1];
    forall i, j | 0 <= i < j < |init| ensures Len(init[i]) >= Len(init[j]) {
      assert init[i] == r[i] && init[j] == r[j];
    }
  }

  /** `x` longer than the last element goes where it goes among the others. */
  lemma InsertBeforeLast(r: seq<CollectedWordData>, init: seq<CollectedWordData>, last: CollectedWordData,
                         x: CollectedWordData, k: nat)
    requires r == init + [last] && Len(last) < Len(x)
    requires k <= |init| && InsertDesc(init, x) == init[..k] + [x] + init[k..]
    requires forall j :: k <= j < |init| ==> Len(init[j]) < Len(x)
    requires forall j :: 0 <= j < k ==> Len(init[j]) >= Len(x)
    ensures InsertDesc(r, x) == r[..k] + [x] + r[k..]
    ensures forall j :: k <= j < |r| ==> Len(r[j]) < Len(x)
    ensures forall j :: 0 <= j < k ==> Len(r[j]) >= Len(x)
  {
    InsertDescSnoc(r, init, last, x);
    SplitSnoc(init, last, x, k);
    LensAfterSnoc(r, init, last, x, k);
  }

  /** Unfolding `InsertDesc` when the last element is shorter. */
  lemma InsertDescSnoc(r: seq<CollectedWordData>, init: seq<CollectedWordData>, last: CollectedWordData,
                       x: CollectedWordData)
    requires r == init + [last] && Len(last) < Len(x)
    ensures InsertDesc(r, x) == InsertDesc(init, x) + [last]
  {
    assert r[..|r| - 1] == init;
  }

  /** The length bounds carry over to the longer sequence. */
  lemma LensAfterSnoc(r: seq<CollectedWordData>, init: seq<CollectedWordData>, last: CollectedWordData,
                      x: CollectedWordData, k: nat)
    requires r == init + [last] && Len(last) < Len(x) && k <= |init|
    requires forall j :: k <= j < |init| ==> Len(init[j]) < Len(x)
    requires forall j :: 0 <= j < k ==> Len(init[j]) >= Len(x)
    ensures forall j :: k <= j < |r| ==> Len(r[j]) < Len(x)
    ensures forall j :: 0 <= j < k ==> Len(r[j]) >= Len(x)
  {
    forall j | 0 <= j < |init| ensures r[j] == init[j] {
    }
  }

  /** Appending after the split is splitting the longer sequence at the same place. */
  lemma SplitSnoc(init: seq<CollectedWordData>, last: CollectedWordData, x: CollectedWordData, k: nat)
    requires k <= |init|
    ensures init[..k] + [x] + init[k..] + [last] == (init + [last])[..k] + [x] + (init + [last])[k..]
  {
    assert (init + [last])[..k] == init[..k];
    assert (init + [last])[k..] == init[k..] + [last];
  }

  lemma InsertKeepsOrder(r: seq<CollectedWordData>, x: CollectedWordData)
    requires NonIncreasing(r)
    ensures NonIncreasing(InsertDesc(r, x))
    ensures multiset(InsertDesc(r, x)) == multiset(r) + multiset{x}
  {
    var k := InsertSplit(r, x);
    SplitOrdered(r, x, k);
    SplitMultiset(r, x, k);
  }

  /** Putting `x` between the longer prefix and the shorter suffix keeps the order. */
  lemma SplitOrdered(r: seq<CollectedWordData>, x: CollectedWordData, k: nat)
    requires NonIncreasing(r) && k <= |r|
    requires forall j :: k <= j < |r| ==> Len(r[j]) < Len(x)
    requires forall j :: 0 <= j < k ==> Len(r[j]) >= Len(x)
    ensures NonIncreasing(r[..k] + [x] + r[k..])
  {
    var t := r[..k] + [x] + r[k..];
    forall i, j | 0 <= i < j < |t| ensures Len(t[i]) >= Len(t[j]) {
      if j < k {
        assert t[i] == r[i] && t[j] == r[j];
      } else if j == k {
        assert t[i] == r[i];
      } else if i < k {
        assert t[i] == r[i] && t[j] == r[j - 1];
      } else if i == k {
        assert t[j] == r[j - 1];
      } else {
        assert t[i] == r[i - 1] && t[j] == r[j - 1];
      }
    }
  }

  /** Putting `x` anywhere adds exactly `x`. */
  lemma SplitMultiset(r: seq<CollectedWordData>, x: CollectedWordData, k: nat)
    requires k <= |r|
    ensures multiset(r[..k] + [x] + r[k..]) == multiset(r) + multiset{x}
  {
    assert r == r[..k] + r[k..];
  }

  /** Moving `x` past elements that fail `p` does not change what `p` keeps, when `x` passes. */
  lemma MoveAcross<T>(a: seq<T>, b: seq<T>, x: T, p: T -> bool)
    requires p(x) ==> forall i :: 0 <= i < |b| ==> !p(b[i])
    ensures Filter(a + [x] + b, p) == Filter(a + b, p) + Filter([x], p)
  {
    FilterAppend(a + [x], b, p);
    FilterAppend(a, [x], p);
    FilterAppend(a, b, p);
    if p(x) {
      FilterNone(b, p);
      assert Filter(b, p) == [];
      assert Filter(a + b, p) == Filter(a, p);
    } else {
      FilterNone([x], p);
      assert Filter([x], p) == [];
      assert Filter(a + [x], p) == Filter(a, p);
    }
  }

  /** Inserting keeps each length class in insertion order, with `x` last in its class. */
  lemma InsertLengthClass(r: seq<CollectedWordData>, x: CollectedWordData, n: nat)
    requires NonIncreasing(r)
    ensures Filter(InsertDesc(r, x), HasLen(n)) == Filter(r, HasLen(n)) + Filter([x], HasLen(n))
  {
    var k := InsertSplit(r, x);
    assert r == r[..k] + r[k..];
    MoveAcross(r[..k], r[k..], x, HasLen(n));
  }

  /** The sort orders by non-increasing length and is stable: for every length, the entries of
      that length appear in their input order. It is a permutation of its input. */
  lemma {:induction false} SortedByDescendingLengthSpec(s: seq<CollectedWordData>)
    ensures NonIncreasing(SortedByDescendingLength(s))
    ensures multiset(SortedByDescendingLength(s)) == multiset(s)
    ensures forall n: nat :: Filter(SortedByDescendingLength(s), HasLen(n)) == Filter(s, HasLen(n))
    decreases |s|
  {
    if s != [] {
      var init := s[..|s| - 1];
      var last := s[|s| - 1];
      SortedByDescendingLengthSpec(init);
      var r := SortedByDescendingLength(init);
      InsertKeepsOrder(r, last);
      assert s == init + [last];
      forall n: nat ensures Filter(SortedByDescendingLength(s), HasLen(n)) == Filter(s, HasLen(n)) {
        InsertLengthClass(r, last, n);
        FilterAppend(init, [last], HasLen(n));
      }
    }
  }

  // ---------------------------------------------------------------------------------------------
  // Whole-word replacement, `replace("\\b<word>\\b".toRegex(), replacement)`

  /** `\b` at position `p`: exactly one of the characters on either side is a word character,
      the ends of the text counting as non-word characters. */
  predicate Boundary(text: string, p: nat)
    requires p <= |text|
  {
    var before := p > 0 && IsWordChar(text[p - 1]);
    var after := p < |text| && IsWordChar(text[p]);
    before != after
  }

  /** `\b<word>\b` matches at position `i`. */
  predicate MatchAt(text: string, word: string, i: nat)
    requires i <= |text|
  {
    i + |word| <= |text| && text[i..i + |word|] == word && Boundary(text, i) && Boundary(text, i + |word|)
  }

  /** Characters with a meaning in a regex pattern, and in a replacement string. */
  predicate IsRegexMeta(c: char) {
    c in "\\^$.|?*+()[]{}"
  }

  predicate IsLiteralPattern(word: string) {
    word != [] && forall i :: 0 <= i < |word| ==> !IsRegexMeta(word[i])
  }

  predicate IsLiteralReplacement(rep: string) {
    forall i :: 0 <= i < |rep| ==> rep[i] != '$' && rep[i] != '\\'
  }

  /** The matcher's scan from position `i`: at a match the replacement is emitted and the scan
      resumes after the match; otherwise the character is copied. Boundaries are judged on the
      original text. */
  function ReplaceFrom(text: string, word: string, rep: string, i: nat): string
    requires word != [] && i <= |text|
    decreases |text| - i
  {
    if i == |text| then []
    else if MatchAt(text, word, i) then rep + ReplaceFrom(text, word, rep, i + |word|)
    else [text[i]] + ReplaceFrom(text, word, rep, i + 1)
  }

  function ReplaceWholeWord(text: string, word: string, rep: string): string
    requires IsLiteralPattern(word) && IsLiteralReplacement(rep)
  {
    ReplaceFrom(text, word, rep, 0)
  }

  /** Replacing a word by itself changes nothing. */
  lemma {:induction false} ReplaceFromSelf(text: string, word: string, i: nat)
    requires word != [] && i <= |text|
    ensures ReplaceFrom(text, word, word, i) == text[i..]
    decreases |text| - i
  {
    if i < |text| {
      if MatchAt(text, word, i) {
        ReplaceFromSelf(text, word, i + |word|);
        assert text[i..] == text[i..i + |word|] + text[i + |word|..];
      } else {
        ReplaceFromSelf(text, word, i + 1);
        assert text[i..] == [text[i]] + text[i + 1..];
      }
    }
  }

  /** Without a whole-word occurrence the text is unchanged — in particular an occurrence inside a
      longer word is left alone. */
  lemma {:induction false} ReplaceFromNoMatch(text: string, word: string, rep: string, i: nat)
    requires word != [] && i <= |text|
    requires forall j :: i <= j <= |text| ==> !MatchAt(text, word, j)
    ensures ReplaceFrom(text, word, rep, i) == text[i..]
    decreases |text| - i
  {
    if i < |text| {
      ReplaceFromNoMatch(text, word, rep, i + 1);
      assert text[i..] == [text[i]] + text[i + 1..];
    }
  }

  /** A text that is exactly the word, beginning and ending with word characters, becomes the
      replacement. */
  lemma ReplaceExactWord(word: string, rep: string)
    requires IsLiteralPattern(word) && IsLiteralReplacement(rep)
    requires IsWordChar(word[0]) && IsWordChar(word[|word| - 1])
    ensures ReplaceWholeWord(word, word, rep) == rep
  {
    assert word[0..|word|] == word;
    assert MatchAt(word, word, 0);
    assert ReplaceFrom(word, word, rep, 0) == rep + ReplaceFrom(word, word, rep, |word|);
    assert rep + [] == rep;
  }

  /** A match is followed by the rest of the text, scanned again from the match's end. */
  lemma ReplaceAtMatch(text: string, word: string, rep: string, i: nat)
    requires word != [] && i < |text| && MatchAt(text, word, i)
    ensures ReplaceFrom(text, word, rep, i) == rep + ReplaceFrom(text, word, rep, i + |word|)
  {
  }

  // ---------------------------------------------------------------------------------------------
  // generateCorrectedText

  predicate HasCorrection(d: CollectedWordData) {
    d.correctedWord.Some?
  }

  /** The entries the text can be corrected with without a regex surprise: the original word is
      a literal pattern and the settled word a literal replacement. */
  predicate SafeCorrection(d: CollectedWordData) {
    IsLiteralPattern(d.originalWord) && IsLiteralReplacement(SettledWord(d))
  }

  /** The corrections in the order they are applied. */
  function CorrectionOrder(wordData: seq<CollectedWordData>): seq<CollectedWordData> {
    SortedByDescendingLength(Filter(wordData, HasCorrection))
  }

  /** The corrections applied one after the other. */
  function ApplyAll(text: string, corrections: seq<CollectedWordData>): string
    requires forall i :: 0 <= i < |corrections| ==> SafeCorrection(corrections[i])
    decreases |corrections|
  {
    if corrections == [] then text
    else
      var last := corrections[|corrections| - 1];
      assert SafeCorrection(last);
      ReplaceWholeWord(ApplyAll(text, corrections[..|corrections| - 1]), last.originalWord, SettledWord(last))
  }

  lemma CorrectionOrderSafe(wordData: seq<CollectedWordData>)
    requires forall i :: 0 <= i < |wordData| && HasCorrection(wordData[i]) ==> SafeCorrection(wordData[i])
    ensures forall i :: 0 <= i < |CorrectionOrder(wordData)| ==> SafeCorrection(CorrectionOrder(wordData)[i])
  {
    var f := Filter(wordData, HasCorrection);
    SortedByDescendingLengthSpec(f);
    forall i | 0 <= i < |CorrectionOrder(wordData)| ensures SafeCorrection(CorrectionOrder(wordData)[i]) {
      var d := CorrectionOrder(wordData)[i];
      assert d in multiset(f);
      assert d in f;
      FilterMembership(wordData, HasCorrection, d);
    }
  }

  /** `generateCorrectedText`: the loop over the corrections, longest original first. */
  method GenerateCorrectedText(originalText: string, wordData: seq<CollectedWordData>) returns (correctedText: string)
    requires forall i :: 0 <= i < |wordData| && HasCorrection(wordData[i]) ==> SafeCorrection(wordData[i])
    ensures forall i :: 0 <= i < |CorrectionOrder(wordData)| ==> SafeCorrection(CorrectionOrder(wordData)[i])
    ensures correctedText == ApplyAll(originalText, CorrectionOrder(wordData))
  {
    CorrectionOrderSafe(wordData);
    correctedText := originalText;
    var sortedWords := CorrectionOrder(wordData);
    for i := 0 to |sortedWords|
      invariant correctedText == ApplyAll(originalText, sortedWords[..i])
    {
      var word := sortedWords[i];
      assert sortedWords[..i + 1][..i] == sortedWords[..i];
      correctedText := ReplaceWholeWord(correctedText, word.originalWord, word.correctedWord.GetOr(word.originalWord));
    }
    assert sortedWords[..|sortedWords|] == sortedWords;
  }

  /** With no corrections the text is returned unchanged. */
  lemma NoCorrectionsNoChange(originalText: string, wordData: seq<CollectedWordData>)
    requires forall i :: 0 <= i < |wordData| ==> !HasCorrection(wordData[i])
    ensures CorrectionOrder(wordData) == []
    ensures ApplyAll(originalText, CorrectionOrder(wordData)) == originalText
  {
    FilterNone(wordData, HasCorrection);
  }

  /** Corrections that settle on the original word leave the text as it was. */
  lemma {:induction false} IdentityCorrectionsNoChange(text: string, corrections: seq<CollectedWordData>)
    requires forall i :: 0 <= i < |corrections| ==> SafeCorrection(corrections[i]) && SettledWord(corrections[i]) == corrections[i].originalWord
    ensures ApplyAll(text, corrections) == text
    decreases |corrections|
  {
    if corrections != [] {
      var init := corrections[..|corrections| - 1];
      IdentityCorrectionsNoChange(text, init);
      var last := corrections[|corrections| - 1];
      ReplaceFromSelf(text, last.originalWord, 0);
    }
  }

  // ---------------------------------------------------------------------------------------------
  // The overlay's status map and the results dialog

  /** `associate { it.originalWord to it.isMarkedStrange }`: the last entry for a word wins. */
  function MarkedStatus(data: seq<CollectedWordData>): map<string, bool>
    decreases |data|
  {
    if data == [] then map[]
    else MarkedStatus(data[..|data| - 1])[data[|data| - 1].originalWord := data[|data| - 1].isMarkedStrange]
  }

  /** `i` is the last entry collected for `word`. */
  predicate LastEntry(data: seq<CollectedWordData>, word: string, i: int)
  {
    0 <= i < |data| && data[i].originalWord == word && forall j :: i < j < |data| ==> data[j].originalWord != word
  }

  /** Each word's status is the mark of its last entry, and only collected words have one. */
  lemma {:induction false} MarkedStatusLastWins(data: seq<CollectedWordData>, word: string)
    ensures word in MarkedStatus(data) <==> exists i :: 0 <= i < |data| && data[i].originalWord == word
    ensures word in MarkedStatus(data) ==> exists i :: LastEntry(data, word, i) && MarkedStatus(data)[word] == data[i].isMarkedStrange
    decreases |data|
  {
    if data != [] {
      var init := data[..|data| - 1];
      var last := data[|data| - 1];
      MarkedStatusLastWins(init, word);
      if last.originalWord == word {
        assert LastEntry(data, word, |data| - 1);
      } else {
        if word in MarkedStatus(init) {
          var i :| LastEntry(init, word, i) && MarkedStatus(init)[word] == init[i].isMarkedStrange;
          assert data[i] == init[i];
          forall j | i < j < |data| ensures data[j].originalWord != word {
            if j < |data| - 1 {
              assert data[j] == init[j];
            }
          }
          assert LastEntry(data, word, i);
        }
        if exists i :: 0 <= i < |data| && data[i].originalWord == word {
          var i :| 0 <= i < |data| && data[i].originalWord == word;
          assert init[i] == data[i];
        }
      }
    }
  }

  /** On this screen the overlay draws a word green exactly when its last entry is marked
      strange. */
  lemma OverlayGreenIffMarked(data: seq<CollectedWordData>, w: Word)
    ensures Overlay.BorderColor(MarkedStatus(data), w) == Overlay.Green <==>
      exists i :: LastEntry(data, w.word, i) && data[i].isMarkedStrange
  {
    MarkedStatusLastWins(data, w.word);
    if exists i :: LastEntry(data, w.word, i) && data[i].isMarkedStrange {
      var i :| LastEntry(data, w.word, i) && data[i].isMarkedStrange;
      var k :| LastEntry(data, w.word, k) && MarkedStatus(data)[w.word] == data[k].isMarkedStrange;
      assert k == i;
    }
  }

  /** What the results dialog lists: the number of words, the number marked strange, and the
      settled form of each marked word in order. */
  datatype ResultsSummary = ResultsSummary(wordsCollected: nat, strangeCount: nat, strangeWords: seq<string>)

  function Summarize(session: CollectionSession): (r: ResultsSummary)
    ensures r.wordsCollected == |session.words|
    ensures r.strangeCount == |r.strangeWords| == |Filter(session.words, IsMarked)|
    ensures forall i :: 0 <= i < |r.strangeWords| ==> r.strangeWords[i] == SettledWord(Filter(session.words, IsMarked)[i])
  {
    ResultsSummary(|session.words|, Count(session.words, IsMarked), Map(Filter(session.words, IsMarked), SettledWord))
  }

  /** Freshly captured data has no strange words. */
  lemma InitialDataHasNoStrangeWords(words: seq<Word>, now: int)
    ensures Count(InitialCollectedData(words, now), IsMarked) == 0
  {
    FilterNone(InitialCollectedData(words, now), IsMarked);
  }

  // ---------------------------------------------------------------------------------------------
  // The screen

  /** A captured bitmap; its pixels are not modelled. */
  datatype Bitmap = Bitmap(id: nat)

  /** The state of `DataCollectionScreen`, as one value. */
  datatype ScreenState = ScreenState(
    isCameraActive: bool,
    capturedBitmap: Option<Bitmap>,
    recognizedWords: seq<Word>,
    originalText: string,
    collectedWordData: seq<CollectedWordData>,
    selectedWord: Option<Word>,
    showResultsDialog: bool,
    currentSession: Option<CollectionSession>)

  /** The camera-active defaults. */
  const Initial: ScreenState := ScreenState(true, None, [], "", [], None, false, None)

  class DataCollectionScreen {
    var isCameraActive: bool
    var capturedBitmap: Option<Bitmap>
    var recognizedWords: seq<Word>
    var originalText: string
    var collectedWordData: seq<CollectedWordData>
    var selectedWord: Option<Word>
    var showResultsDialog: bool
    var currentSession: Option<CollectionSession>

    function State(): ScreenState
      reads this
    {
      ScreenState(isCameraActive, capturedBitmap, recognizedWords, originalText, collectedWordData,
        selectedWord, showResultsDialog, currentSession)
    }

    constructor ()
      ensures State() == Initial
    {
      isCameraActive := true;
      capturedBitmap := None;
      recognizedWords := [];
      originalText := "";
      collectedWordData := [];
      selectedWord := None;
      showResultsDialog := false;
      currentSession := None;
    }

    /** `onImageCaptured`: the image, its words and text are kept, the camera closes, and the
        collected data starts from the recognised words. */
    method OnImageCaptured(bitmap: Bitmap, words: seq<Word>, fullText: string, now: int)
      modifies this
      ensures State() == old(State()).(capturedBitmap := Some(bitmap), recognizedWords := words,
        originalText := fullText, isCameraActive := false, collectedWordData := InitialCollectedData(words, now))
      ensures ScanAgainEnabled() && (SaveEnabled() <==> words != [])
    {
      capturedBitmap := Some(bitmap);
      recognizedWords := words;
      originalText := fullText;
      isCameraActive := false;
      collectedWordData := InitialCollectedData(words, now);
    }

    /** The overlay's `onWordSelected`. */
    method OnOverlayWordSelected(word: Word)
      modifies this
      ensures State() == old(State()).(selectedWord := Some(word))
    {
      selectedWord := Some(word);
    }

    /** The list's "Edit": the first recognised word with that text, if any. */
    method OnListWordSelected(wordData: CollectedWordData)
      modifies this
      ensures var k := FirstIndex(old(recognizedWords), (w: Word) => w.word == wordData.originalWord);
        State() == old(State()).(selectedWord := if k < |old(recognizedWords)| then Some(old(recognizedWords)[k]) else None)
    {
      var k := FirstIndex(recognizedWords, (w: Word) => w.word == wordData.originalWord);
      selectedWord := if k < |recognizedWords| then Some(recognizedWords[k]) else None;
    }

    /** The editor's `onDataChanged`, while a word is selected. */
    method OnDataChanged(updatedData: CollectedWordData)
      requires selectedWord.Some?
      modifies this
      ensures State() == old(State()).(collectedWordData := UpdateCollected(old(collectedWordData), old(selectedWord).value.word, updatedData))
    {
      collectedWordData := UpdateCollected(collectedWordData, selectedWord.value.word, updatedData);
    }

    /** The editor's "Close". */
    method OnEditorClose()
      modifies this
      ensures State() == old(State()).(selectedWord := None)
    {
      selectedWord := None;
    }

    /** The "Scan Again" button's `enabled`. */
    predicate ScanAgainEnabled()
      reads this
    {
      !isCameraActive
    }

    /** The "Save Results" button's `enabled`: only ever when "Scan Again" is. */
    predicate SaveEnabled()
      reads this
      ensures SaveEnabled() ==> ScanAgainEnabled()
    {
      !isCameraActive && collectedWordData != []
    }

    /** "Scan Again": every scan field back to its camera-active default; the dialog state stays. */
    method ScanAgain()
      modifies this
      ensures State() == Initial.(showResultsDialog := old(showResultsDialog), currentSession := old(currentSession))
      ensures !ScanAgainEnabled() && !SaveEnabled()
    {
      isCameraActive := true;
      capturedBitmap := None;
      recognizedWords := [];
      originalText := "";
      collectedWordData := [];
      selectedWord := None;
    }

    /** "Save Results": off the camera, builds the session from the collected data and the
        corrected text and, when storing it succeeds, opens the results dialog on it. `id` and
        `now` are the session's UUID and time; `saveFailed` says the write threw. */
    method SaveResults(id: string, now: int, saveFailed: bool) returns (session: Option<CollectionSession>)
      requires forall i :: 0 <= i < |collectedWordData| && HasCorrection(collectedWordData[i]) ==> SafeCorrection(collectedWordData[i])
      modifies this
      ensures old(isCameraActive) ==> session.None? && State() == old(State())
      ensures forall i :: 0 <= i < |CorrectionOrder(old(collectedWordData))| ==> SafeCorrection(CorrectionOrder(old(collectedWordData))[i])
      ensures !old(isCameraActive) ==> (session.Some? && session.value.id == id && session.value.timestamp == now &&
        session.value.words == old(collectedWordData) &&
        session.value.fullText == ApplyAll(old(originalText), CorrectionOrder(old(collectedWordData))))
      ensures !old(isCameraActive) && saveFailed ==> State() == old(State())
      ensures !old(isCameraActive) && !saveFailed ==> State() == old(State()).(currentSession := session, showResultsDialog := true)
    {
      CorrectionOrderSafe(collectedWordData);
      session := None;
      if !isCameraActive {
        var correctedText := GenerateCorrectedText(originalText, collectedWordData);
        session := Some(CollectionSession(id, now, collectedWordData, correctedText));
        if !saveFailed {
          currentSession := session;
          showResultsDialog := true;
        }
      }
    }

    /** Dismissing or exporting closes the results dialog. */
    method CloseResults()
      modifies this
      ensures State() == old(State()).(showResultsDialog := false)
    {
      showResultsDialog := false;
    }
  }
}
