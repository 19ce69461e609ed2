/** `camera/StrangeWordConfig`: the set of common words, loaded once from the first lines of the
    ranked word list, and the strangeness test against it. */
module StrangeWordConfig {
  import opened Wrappers
  import opened Chars
  import Seqs

  /** `TOP_WORDS_COUNT`: how many lines of the word list are read. */
  const TOP_WORDS_COUNT: nat := 40000

  /** The word a line of the list contributes: its first space-separated field, trimmed and
      lower-cased (`line.split(" ").get(0).trim().lowercase()`). */
  function LineWord(line: string): string {
    Lower(Trim(BeforeFirst(line, ' ')))
  }

  /** The words that `key` extracts from `lines`. */
  function CommonWordsBy(lines: seq<string>, key: string -> string): set<string>
    decreases |lines|
  {
    if lines == [] then {} else CommonWordsBy(lines[..|lines| - 1], key) + {key(lines[|lines| - 1])}
  }

  /** A word is common exactly when some line yields it. */
  lemma {:induction false} CommonWordsByMembership(lines: seq<string>, key: string -> string, w: string)
    ensures w in CommonWordsBy(lines, key) <==> exists i :: 0 <= i < |lines| && key(lines[i]) == w
    decreases |lines|
  {
    if lines != [] {
      var init := lines[..|lines| - 1];
      CommonWordsByMembership(init, key, w);
      if exists i :: 0 <= i < |lines| && key(lines[i]) == w {
        var i :| 0 <= i < |lines| && key(lines[i]) == w;
        if i < |lines| - 1 {
          assert init[i] == lines[i];
        }
      }
      if exists i :: 0 <= i < |init| && key(init[i]) == w {
        var i :| 0 <= i < |init| && key(init[i]) == w;
        assert lines[i] == init[i];
      }
    }
  }

  /** One more line adds its word. */
  lemma CommonWordsByStep(lines: seq<string>, n: nat, key: string -> string)
    requires n < |lines|
    ensures CommonWordsBy(lines[..n + 1], key) == CommonWordsBy(lines[..n], key) + {key(lines[n])}
  {
    assert lines[..n + 1][..n] == lines[..n];
  }

  /** There are at most as many common words as lines read. */
  lemma {:induction false} CommonWordsBySize(lines: seq<string>, key: string -> string)
    ensures |CommonWordsBy(lines, key)| <= |lines|
    decreases |lines|
  {
    if lines != [] {
      CommonWordsBySize(lines[..|lines| - 1], key);
    }
  }

  /** `isStrange` against a given set: the lower-cased word is not common. */
  predicate IsStrangeIn(commonWords: set<string>, word: string) {
    Lower(word) !in commonWords
  }

  /** Strangeness ignores case. */
  lemma StrangeIgnoresCase(commonWords: set<string>, word: string)
    ensures IsStrangeIn(commonWords, word) == IsStrangeIn(commonWords, Lower(word))
  {
    LowerIdempotent(word);
  }

  /** Before any word is loaded, every word is strange; there is no length threshold. */
  lemma EverythingStrangeWhenEmpty(word: string)
    ensures IsStrangeIn({}, word)
  {
  }

  /** The exception `initialize` rethrows when the list cannot be opened or read. */
  datatype LoadError = WordListUnreadable

  /** The singleton object. */
  class Config {
    var commonWords: set<string>
    var isInitialized: bool

    constructor ()
      ensures commonWords == {} && !isInitialized
    {
      commonWords := {};
      isInitialized := false;
    }

    /** `isStrange`. */
    predicate IsStrange(word: string)
      reads this
    {
      IsStrangeIn(commonWords, word)
    }

    /** The `forEach` with its counter: adds the key of each line while fewer than `limit` lines
        have been taken. */
    method AddLeadingWords(lines: seq<string>, key: string -> string, limit: nat) returns (count: nat)
      modifies this
      ensures count == Seqs.Min(|lines|, limit)
      ensures commonWords == old(commonWords) + CommonWordsBy(lines[..count], key)
      ensures isInitialized == old(isInitialized)
    {
      count := 0;
      for i := 0 to |lines|
        invariant count == Seqs.Min(i, limit)
        invariant commonWords == old(commonWords) + CommonWordsBy(lines[..count], key)
        invariant isInitialized == old(isInitialized)
      {
        if count < limit {
          CommonWordsByStep(lines, count, key);
          commonWords := commonWords + {key(lines[count])};
          count := count + 1;
        }
      }
    }

    /** `initialize`: a no-op once initialised; otherwise adds the words of the first
        `TOP_WORDS_COUNT` lines and marks the object initialised. `lines` are the lines the
        reader delivers; `readError` says the stream then throws (opening it failing too, with
        no lines), in which case the words already added stay and the object stays
        uninitialised. */
    method Initialize(lines: seq<string>, readError: bool) returns (r: Outcome<LoadError>)
      modifies this
      ensures old(isInitialized) ==> r == Pass && isInitialized && commonWords == old(commonWords)
      ensures !old(isInitialized) ==>
        commonWords == old(commonWords) + CommonWordsBy(lines[..Seqs.Min(|lines|, TOP_WORDS_COUNT)], LineWord)
      ensures !old(isInitialized) ==> isInitialized == !readError && (r == Fail(WordListUnreadable) <==> readError)
      ensures |commonWords| <= |old(commonWords)| + TOP_WORDS_COUNT
    {
      if isInitialized {
        return Pass;
      }
      var count := AddLeadingWords(lines, LineWord, TOP_WORDS_COUNT);
      CommonWordsBySize(lines[..count], LineWord);
      var added := CommonWordsBy(lines[..count], LineWord);
      assert |old(commonWords) + added| <= |old(commonWords)| + |added|;
      if readError {
        return Fail(WordListUnreadable);
      }
      isInitialized := true;
      return Pass;
    }
  }

  /** Loading a fresh object leaves at most `TOP_WORDS_COUNT` common words, each from one of the
      first `TOP_WORDS_COUNT` lines, and a later call changes nothing. */
  method LoadOnce(lines: seq<string>) returns (c: Config)
    ensures fresh(c) && c.isInitialized
    ensures |c.commonWords| <= TOP_WORDS_COUNT
    ensures forall w :: w in c.commonWords ==>
      exists i :: 0 <= i < |lines| && i < TOP_WORDS_COUNT && LineWord(lines[i]) == w
  {
    c := new Config();
    var _ := c.Initialize(lines, false);
    var prefix := lines[..Seqs.Min(|lines|, TOP_WORDS_COUNT)];
    forall w | w in c.commonWords
      ensures exists i :: 0 <= i < |lines| && i < TOP_WORDS_COUNT && LineWord(lines[i]) == w
    {
      CommonWordsByMembership(prefix, LineWord, w);
      var i :| 0 <= i < |prefix| && LineWord(prefix[i]) == w;
      assert lines[i] == prefix[i];
    }
    var before := c.commonWords;
    var _ := c.Initialize(lines, true);
    assert c.commonWords == before;
  }
}
