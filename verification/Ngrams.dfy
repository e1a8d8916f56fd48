/** Feature extraction of the sentence filter: the n-gram scan that jumps over missing words, and
    the one-byte counting of a sentence's features. */
module Ngrams {

  const MISSING_WORD_ID: nat := 0
  const NGRAM_ORDER: nat := 3
  const MAX_SENT_LENGTH: nat := 255
  const BYTE: nat := 256

  type Ngram = seq<nat>

  /** The window itself, or nothing if it holds a missing word. */
  function Complete(window: Ngram): seq<Ngram> {
    if MISSING_WORD_ID in window then [] else [window]
  }

  /** Every window of n words from start on, left to right, without those holding a missing word. */
  function WindowsOf(tokens: seq<nat>, n: nat, start: nat): seq<Ngram>
    decreases |tokens| - start
  {
    if n == 0 || start + n > |tokens| then []
    else
      Complete(tokens[start..start+n]) + WindowsOf(tokens, n, start + 1)
  }

  /** The windows of one word, then those of two, and so on up to the given length. */
  function AllWindows(tokens: seq<nat>, longest: nat): seq<Ngram> {
    if longest == 0 then [] else AllWindows(tokens, longest - 1) + WindowsOf(tokens, longest, 0)
  }

  /** No window that starts at or before a missing word and reaches it survives. */
  lemma {:induction false} SkipMissing(tokens: seq<nat>, n: nat, start: nat, word: nat)
    requires start <= word < start + n && word < |tokens| && tokens[word] == MISSING_WORD_ID
    ensures WindowsOf(tokens, n, start) == WindowsOf(tokens, n, word + 1)
    decreases word - start
  {
    if start + n <= |tokens| {
      assert tokens[start..start+n][word - start] == MISSING_WORD_ID;
      if start < word {
        SkipMissing(tokens, n, start + 1, word);
      }
    }
  }

  lemma NoLongWindows(tokens: seq<nat>, longest: nat)
    requires longest >= |tokens|
    ensures AllWindows(tokens, longest) == AllWindows(tokens, |tokens|)
  {
    if longest > |tokens| {
      NoLongWindows(tokens, longest - 1);
    }
  }

  lemma AllWindowsStep(tokens: seq<nat>, longest: nat)
    ensures AllWindows(tokens, longest + 1) == AllWindows(tokens, longest) + WindowsOf(tokens, longest + 1, 0)
    ensures AllWindows(tokens, 0) == []
  {
  }

  /** Reads one window; on a missing word it stops there and returns its position. */
  method ReadGram(tokens: seq<nat>, from: nat, order: nat) returns (cancelled: bool, gram: Ngram, start: nat)
    requires from + order < |tokens|
    ensures if cancelled then from <= start <= from + order && tokens[start] == MISSING_WORD_ID
            else start == from && gram == tokens[from..from+order+1] && MISSING_WORD_ID !in gram
  {
    cancelled, gram, start := false, [], from;
    var word := start;
    while word <= start + order
      invariant start <= word <= start + order + 1
      invariant gram == tokens[start..word] && MISSING_WORD_ID !in gram
    {
      var id := tokens[word];
      if id == MISSING_WORD_ID {
        start := start + (word - start);
        cancelled := true;
        break;
      }
      gram := gram + [id];
      word := word + 1;
    }
  }

  /** Either outcome of reading the window at start leaves exactly the later windows to add. */
  lemma ScanStep(tokens: seq<nat>, order: nat, start: nat, found: seq<Ngram>, cancelled: bool, gram: Ngram, at: nat)
    requires start + order < |tokens|
    requires if cancelled then start <= at <= start + order && tokens[at] == MISSING_WORD_ID
             else at == start && gram == tokens[start..start+order+1] && MISSING_WORD_ID !in gram
    ensures (found + if cancelled then [] else [gram]) + WindowsOf(tokens, order + 1, at + 1)
         == found + WindowsOf(tokens, order + 1, start)
  {
    hide WindowsOf, Complete;
    if cancelled {
      SkipMissing(tokens, order + 1, start, at);
      assert found + [] == found;
    } else {
      WindowTaken(tokens, order + 1, start);
      assert found + ([gram] + WindowsOf(tokens, order + 1, start + 1)) == (found + [gram]) + WindowsOf(tokens, order + 1, start + 1);
    }
  }

  lemma WindowTaken(tokens: seq<nat>, n: nat, start: nat)
    requires 0 < n && start + n <= |tokens| && MISSING_WORD_ID !in tokens[start..start+n]
    ensures WindowsOf(tokens, n, start) == [tokens[start..start+n]] + WindowsOf(tokens, n, start + 1)
  {
  }

  lemma NoMoreWindows(tokens: seq<nat>, order: nat, start: nat)
    requires start + order >= |tokens|
    ensures WindowsOf(tokens, order + 1, start) == []
  {
  }

  /** The scan: it moves start itself past a missing word, yet misses no window. */
  method GetNgrams(tokens: seq<nat>) returns (ngrams: seq<Ngram>)
    ensures ngrams == AllWindows(tokens, NGRAM_ORDER)
  {
    hide AllWindows, WindowsOf;
    ngrams := [];
    var order := 0;
    AllWindowsStep(tokens, 0);
    while order < NGRAM_ORDER && order < |tokens|
      invariant 0 <= order <= NGRAM_ORDER && order <= |tokens|
      invariant ngrams == AllWindows(tokens, order)
    {
      var start := 0;
      AllWindowsStep(tokens, order);
      while start < |tokens| - order
        invariant 0 <= start <= |tokens|
        invariant ngrams + WindowsOf(tokens, order + 1, start) == AllWindows(tokens, order + 1)
      {
        var cancelled, gram, at := ReadGram(tokens, start, order);
        ScanStep(tokens, order, start, ngrams, cancelled, gram, at);
        if !cancelled {
          ngrams := ngrams + [gram]; // only grams without a missing word are added
        }
        start := at + 1;
      }
      NoMoreWindows(tokens, order, start);
      order := order + 1;
    }
    if order < NGRAM_ORDER {
      NoLongWindows(tokens, NGRAM_ORDER);
    }
  }

  // ---------- counting a sentence's features ----------

  /** How often g occurs in the tokens from start on. */
  function Occurrences(tokens: seq<nat>, g: Ngram, start: nat): (n: nat)
    ensures n <= if start <= |tokens| then |tokens| - start + 1 else 0
    ensures g != [] ==> n <= if start <= |tokens| then |tokens| - start else 0
    decreases |tokens| - start
  {
    if start + |g| > |tokens| then 0
    else (if tokens[start..start+|g|] == g then 1 else 0) + Occurrences(tokens, g, start + 1)
  }

  ghost predicate SpelledAt(tokens: seq<nat>, g: Ngram, i: nat) {
    i + |g| <= |tokens| && tokens[i..i+|g|] == g
  }

  /** The places from start on at which the tokens spell g. */
  ghost function Spelled(tokens: seq<nat>, g: Ngram, start: nat): set<nat> {
    set i: nat | start <= i <= |tokens| && SpelledAt(tokens, g, i)
  }

  lemma SpelledNext(tokens: seq<nat>, g: Ngram, start: nat)
    ensures start + |g| > |tokens| ==> |Spelled(tokens, g, start)| == 0
    ensures start + |g| <= |tokens| ==>
              |Spelled(tokens, g, start)| == (if tokens[start..start+|g|] == g then 1 else 0) + |Spelled(tokens, g, start + 1)|
  {
    if start + |g| > |tokens| {
      assert Spelled(tokens, g, start) == {};
    } else {
      var later := Spelled(tokens, g, start + 1);
      assert Spelled(tokens, g, start) == if tokens[start..start+|g|] == g then later + {start} else later;
    }
  }

  lemma {:induction false} OccurrencesAre(tokens: seq<nat>, g: Ngram, start: nat)
    ensures Occurrences(tokens, g, start) == |Spelled(tokens, g, start)|
    decreases |tokens| - start
  {
    hide Spelled;
    SpelledNext(tokens, g, start);
    if start + |g| <= |tokens| {
      OccurrencesAre(tokens, g, start + 1);
    }
  }

  /** A gram is counted where it is spelled, if it is short enough and misses no word. */
  function Expected(tokens: seq<nat>, g: Ngram, longest: nat): nat {
    if 1 <= |g| <= longest && MISSING_WORD_ID !in g then Occurrences(tokens, g, 0) else 0
  }

  lemma {:induction false} WindowCount(tokens: seq<nat>, n: nat, start: nat, g: Ngram)
    requires n > 0
    ensures multiset(WindowsOf(tokens, n, start))[g]
         == (if |g| == n && MISSING_WORD_ID !in g then Occurrences(tokens, g, start) else 0)
    decreases |tokens| - start
  {
    hide Complete;
    if start + n <= |tokens| {
      WindowCount(tokens, n, start + 1, g);
      var window, rest := tokens[start..start+n], WindowsOf(tokens, n, start + 1);
      HeadCount(window, rest, g);
    }
  }

  lemma HeadCount(window: Ngram, rest: seq<Ngram>, g: Ngram)
    ensures multiset(Complete(window) + rest)[g]
         == (if MISSING_WORD_ID !in g && window == g then 1 else 0) + multiset(rest)[g]
  {
  }

  /** Each spelling without a missing word is extracted exactly once per position. */
  lemma {:induction false} GramCount(tokens: seq<nat>, longest: nat, g: Ngram)
    ensures multiset(AllWindows(tokens, longest))[g] == Expected(tokens, g, longest)
  {
    hide WindowsOf, Occurrences;
    if longest > 0 {
      GramCount(tokens, longest - 1, g);
      WindowCount(tokens, longest, 0, g);
    }
  }

  ghost predicate Distinct(features: seq<Ngram>) {
    forall i, j | 0 <= i < j < |features| :: features[i] != features[j]
  }

  /** Features and counts after one more occurrence of a feature. */
  ghost predicate Incremented(features: seq<Ngram>, counts: seq<nat>, g: Ngram,
                              features': seq<Ngram>, counts': seq<nat>)
    requires |features| == |counts|
  {
    if g in features
    then features' == features && |counts'| == |counts|
      && forall i | 0 <= i < |counts| ::
           counts'[i] == if features[i] == g then (counts[i] + 1) % BYTE else counts[i]
    else features' == features + [g] && counts' == counts + [1]
  }

  /** The features are those seen, each once, and the counts are their multiplicities, one byte each. */
  ghost predicate Tallied(features: seq<Ngram>, counts: seq<nat>, seen: multiset<Ngram>) {
    && |features| == |counts|
    && Distinct(features)
    && (forall g :: g in features <==> g in seen)
    && forall i | 0 <= i < |counts| :: counts[i] == seen[features[i]] % BYTE
  }

  lemma TalliedStep(features: seq<Ngram>, counts: seq<nat>, seen: multiset<Ngram>, g: Ngram,
                    features': seq<Ngram>, counts': seq<nat>)
    requires Tallied(features, counts, seen) && Incremented(features, counts, g, features', counts')
    ensures Tallied(features', counts', seen + multiset{g})
  {
    var more := seen + multiset{g};
    forall i | 0 <= i < |counts'| ensures counts'[i] == more[features'[i]] % BYTE {
      if i < |features| {
        assert features[i] in features;
        if features[i] == g {
          ByteStep(seen[g]);
        }
      }
    }
    if g !in features {
      assert seen[g] == 0;
    }
  }

  lemma ByteStep(n: nat)
    ensures (n % BYTE + 1) % BYTE == (n + 1) % BYTE
  {
  }

  /** The features of one sentence and their one-byte counts. */
  class SentenceTally {
    var features: seq<Ngram>
    var counts: seq<nat>

    constructor ()
      ensures features == [] && counts == []
    {
      features, counts := [], [];
    }

    method IncCount(feature: Ngram)
      requires |features| == |counts| && Distinct(features)
      modifies this
      ensures Incremented(old(features), old(counts), feature, features, counts)
    {
      var i, found := 0, false;
      while i < |features|
        invariant 0 <= i <= |features| && !found
        invariant feature !in features[..i]
      {
        if features[i] == feature {
          found := true;
          break;
        }
        i := i + 1;
      }
      if !found {
        features := features + [feature];
        counts := counts + [1];
      } else {
        counts := counts[i := (counts[i] + 1) % BYTE];
      }
    }
  }

  ghost function Kept(ngrams: seq<Ngram>, featureSet: set<Ngram>): multiset<Ngram> {
    if ngrams == [] then multiset{} else
      var last := ngrams[|ngrams|-1];
      Kept(ngrams[..|ngrams|-1], featureSet) + if last in featureSet then multiset{last} else multiset{}
  }

  lemma {:induction false} KeptCount(ngrams: seq<Ngram>, featureSet: set<Ngram>, g: Ngram)
    ensures Kept(ngrams, featureSet)[g] == if g in featureSet then multiset(ngrams)[g] else 0
  {
    if ngrams != [] {
      var front, last := ngrams[..|ngrams|-1], ngrams[|ngrams|-1];
      assert ngrams == front + [last];
      KeptCount(front, featureSet, g);
    }
  }

  /** Features and counts are exact: each feature of the set that is spelled, once, with its true count. */
  ghost predicate Exact(tokens: seq<nat>, featureSet: set<Ngram>, features: seq<Ngram>, counts: seq<nat>) {
    && |features| == |counts|
    && Distinct(features)
    && (forall g :: g in features <==> g in featureSet && Expected(tokens, g, NGRAM_ORDER) > 0)
    && forall i | 0 <= i < |features| :: counts[i] == Expected(tokens, features[i], NGRAM_ORDER)
  }

  /** With at most 255 tokens no one-byte count wraps. */
  lemma NoWrap(tokens: seq<nat>, featureSet: set<Ngram>, features: seq<Ngram>, counts: seq<nat>)
    requires |tokens| <= MAX_SENT_LENGTH
    requires Tallied(features, counts, Kept(AllWindows(tokens, NGRAM_ORDER), featureSet))
    ensures Exact(tokens, featureSet, features, counts)
  {
    hide Kept, AllWindows, Occurrences;
    var ngrams := AllWindows(tokens, NGRAM_ORDER);
    forall g
      ensures Kept(ngrams, featureSet)[g] == if g in featureSet then Expected(tokens, g, NGRAM_ORDER) else 0
      ensures Expected(tokens, g, NGRAM_ORDER) < BYTE
    {
      KeptCount(ngrams, featureSet, g);
      GramCount(tokens, NGRAM_ORDER, g);
    }
    forall i | 0 <= i < |features| ensures counts[i] == Expected(tokens, features[i], NGRAM_ORDER) {
      assert features[i] in features;
    }
  }

  /** Tallies one mined sentence, or skips it when it is too long for one-byte arithmetic. */
  method CountSentence(tokens: seq<nat>, featureSet: set<Ngram>) returns (stored: bool, tally: SentenceTally)
    ensures fresh(tally)
    ensures stored <==> |tokens| <= MAX_SENT_LENGTH && tally.features != []
    ensures |tokens| <= MAX_SENT_LENGTH ==> Exact(tokens, featureSet, tally.features, tally.counts)
    ensures stored ==> 1 <= |tokens|
  {
    hide AllWindows, Expected, Occurrences, Kept, Distinct, Incremented;
    tally := new SentenceTally();
    if |tokens| > MAX_SENT_LENGTH {
      return false, tally;
    }
    var ngrams := GetNgrams(tokens);
    NothingTallied(ngrams, featureSet);
    for k := 0 to |ngrams|
      invariant fresh(tally)
      invariant Tallied(tally.features, tally.counts, Kept(ngrams[..k], featureSet))
    {
      KeptNext(ngrams, k, featureSet);
      if ngrams[k] in featureSet {
        ghost var features, counts := tally.features, tally.counts;
        tally.IncCount(ngrams[k]);
        TalliedStep(features, counts, Kept(ngrams[..k], featureSet), ngrams[k], tally.features, tally.counts);
      }
    }
    assert ngrams[..|ngrams|] == ngrams;
    NoWrap(tokens, featureSet, tally.features, tally.counts);
    stored := |tally.counts| > 0;
    if stored {
      SomethingToSpell(tokens, tally.features[0]);
    }
  }

  lemma NothingTallied(ngrams: seq<Ngram>, featureSet: set<Ngram>)
    ensures Tallied([], [], Kept(ngrams[..0], featureSet))
  {
  }

  lemma KeptNext(ngrams: seq<Ngram>, k: nat, featureSet: set<Ngram>)
    requires k < |ngrams|
    ensures Kept(ngrams[..k+1], featureSet)
         == if ngrams[k] in featureSet then Kept(ngrams[..k], featureSet) + multiset{ngrams[k]} else Kept(ngrams[..k], featureSet)
  {
    assert ngrams[..k+1][..k] == ngrams[..k];
  }

  lemma SomethingToSpell(tokens: seq<nat>, g: Ngram)
    requires Expected(tokens, g, NGRAM_ORDER) > 0
    ensures |tokens| >= 1
  {
  }
}
