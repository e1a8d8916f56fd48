/** Counting the n-grams of a corpus, sentence by sentence, from histories that slide along the words. */
module CorpusCounts {
  import opened Sorting
  import opened Probing
  import opened NgramVectors
  import opened Layers
  import opened NgramModels
  import opened Merging

  const EndOfSentence: nat := 0

  // ---------- what is counted ----------

  /** No word is missing from the vocabulary. */
  ghost predicate Known(g: seq<int>) {
    forall k | 0 <= k < |g| :: g[k] != Invalid
  }

  /** The n words that end at position i. */
  ghost function Window(words: seq<int>, i: nat, n: nat): (g: seq<int>)
    requires n <= i + 1 <= |words|
    ensures |g| == n
  {
    words[i + 1 - n..i + 1]
  }

  ghost predicate At(words: seq<int>, i: nat, n: nat, g: seq<int>)
    requires i < |words|
  {
    n <= i + 1 && Window(words, i, n) == g && Known(g)
  }

  /** How many windows of n known words that end after position 0 and before position k spell g. */
  ghost function Windows(words: seq<int>, k: nat, n: nat, g: seq<int>): nat
    requires k <= |words|
  {
    if k <= 1 then 0 else Windows(words, k - 1, n, g) + if At(words, k - 1, n, g) then 1 else 0
  }

  ghost function Padded(tokens: seq<int>): (words: seq<int>)
    ensures |words| == |tokens| + 2
  {
    [EndOfSentence] + tokens + [EndOfSentence]
  }

  /** The same over the first k sentences. */
  ghost function CorpusWindows(sentences: seq<seq<int>>, k: nat, n: nat, g: seq<int>): nat
    requires k <= |sentences|
  {
    if k == 0 then 0
    else CorpusWindows(sentences, k - 1, n, g) + Windows(Padded(sentences[k-1]), |Padded(sentences[k-1])|, n, g)
  }

  // ---------- which windows a sentence has ----------

  /** Where n-gram g stands in the first k tokens. */
  ghost function Inside(tokens: seq<int>, k: nat, n: nat, g: seq<int>): (places: set<nat>)
    requires k <= |tokens|
    ensures forall j | j in places :: j < k + 1
  {
    set j: nat | j < k + 1 && StandsAt(tokens, k, n, g, j)
  }

  ghost predicate StandsAt(tokens: seq<int>, k: nat, n: nat, g: seq<int>, j: nat)
    requires k <= |tokens|
  {
    j + n <= k && tokens[j..j + n] == g
  }

  ghost function One(b: bool): nat {
    if b then 1 else 0
  }

  /** A sentence start and the first n - 1 tokens. */
  ghost predicate Opens(tokens: seq<int>, n: nat, g: seq<int>) {
    2 <= n <= |tokens| + 1 && g == [EndOfSentence] + tokens[..n - 1]
  }

  /** The last n - 1 tokens and the sentence end. */
  ghost predicate Closes(tokens: seq<int>, n: nat, g: seq<int>) {
    1 <= n <= |tokens| + 1 && g == tokens[|tokens| - (n - 1)..] + [EndOfSentence]
  }

  /** All of the sentence, with its start and its end. */
  ghost predicate Spans(tokens: seq<int>, n: nat, g: seq<int>) {
    n == |tokens| + 2 && g == [EndOfSentence] + tokens + [EndOfSentence]
  }

  /** How often a sentence counts for g: at every place where g stands among its tokens, at the start, and at the end. */
  ghost function Occurrences(tokens: seq<int>, n: nat, g: seq<int>): nat {
    if n == 0 || !Known(g) then 0
    else
      |Inside(tokens, |tokens|, n, g)|
      + One(Opens(tokens, n, g)) + One(Closes(tokens, n, g)) + One(Spans(tokens, n, g))
  }

  ghost predicate EndsAt(tokens: seq<int>, k: nat, n: nat, g: seq<int>)
    requires k <= |tokens|
  {
    n <= k && tokens[k - n..k] == g
  }

  lemma StandsNext(tokens: seq<int>, k: nat, n: nat, g: seq<int>, j: nat)
    requires k < |tokens| && n > 0
    ensures StandsAt(tokens, k + 1, n, g, j) <==> StandsAt(tokens, k, n, g, j) || (EndsAt(tokens, k + 1, n, g) && j + n == k + 1)
    ensures StandsAt(tokens, k, n, g, j) ==> j + n <= k
  {
  }

  lemma InsideNext(tokens: seq<int>, k: nat, n: nat, g: seq<int>)
    requires k < |tokens| && n > 0
    ensures |Inside(tokens, k + 1, n, g)| == |Inside(tokens, k, n, g)| + One(EndsAt(tokens, k + 1, n, g))
  {
    hide StandsAt, EndsAt;
    var before, after := Inside(tokens, k, n, g), Inside(tokens, k + 1, n, g);
    var ends := EndsAt(tokens, k + 1, n, g);
    if ends {
      EndsWithin(tokens, k + 1, n, g);
    }
    forall j: nat ensures j in after <==> j in before || (ends && j + n == k + 1) {
      StandsNext(tokens, k, n, g, j);
      assert j in before <==> j < k + 1 && StandsAt(tokens, k, n, g, j);
      assert j in after <==> j < k + 2 && StandsAt(tokens, k + 1, n, g, j);
    }
    if ends {
      var place := k + 1 - n;
      StandsNext(tokens, k, n, g, place);
      assert place !in before;
      assert after == before + {place};
    } else {
      assert after == before;
    }
  }

  lemma EndsWithin(tokens: seq<int>, k: nat, n: nat, g: seq<int>)
    requires k <= |tokens| && EndsAt(tokens, k, n, g)
    ensures n <= k
  {
  }

  /** The windows up to the k-th token are the places among these tokens, and the start. */
  lemma {:induction false} WindowsInside(tokens: seq<int>, k: nat, n: nat, g: seq<int>)
    requires k <= |tokens| && n > 0 && Known(g)
    ensures Windows(Padded(tokens), k + 1, n, g)
         == |Inside(tokens, k, n, g)| + One(n <= k + 1 && Opens(tokens, n, g))
  {
    hide Inside, Known, At, Padded, EndsAt, Opens;
    if k == 0 {
      NothingInside(tokens, n, g);
    } else {
      WindowsInside(tokens, k - 1, n, g);
      InsideNext(tokens, k - 1, n, g);
      OneWindow(tokens, k, n, g);
    }
  }

  lemma OneWindow(tokens: seq<int>, k: nat, n: nat, g: seq<int>)
    requires 0 < k <= |tokens| && n > 0 && Known(g)
    ensures One(At(Padded(tokens), k, n, g)) == One(EndsAt(tokens, k, n, g)) + One(n == k + 1 && Opens(tokens, n, g))
  {
    hide Known, Padded, Window;
    if n <= k + 1 {
      WindowInside(tokens, k, n);
    }
  }

  lemma NothingInside(tokens: seq<int>, n: nat, g: seq<int>)
    requires n > 0
    ensures Inside(tokens, 0, n, g) == {} && (1 == n ==> !Opens(tokens, n, g))
  {
  }

  /** The window that ends at the k-th token. */
  lemma WindowInside(tokens: seq<int>, k: nat, n: nat)
    requires 0 < k <= |tokens| && 0 < n <= k + 1
    ensures Window(Padded(tokens), k, n) == if n <= k then tokens[k - n..k] else [EndOfSentence] + tokens[..n - 1]
  {
    var words := Padded(tokens);
    assert words[1..|tokens| + 1] == tokens;
    assert words[..|tokens| + 1] == [EndOfSentence] + tokens;
    if n <= k {
      assert words[k + 1 - n..k + 1] == words[1..|tokens| + 1][k - n..k];
    } else {
      assert words[0..k + 1] == ([EndOfSentence] + tokens)[..k + 1];
    }
  }

  /** The window that ends at the sentence end. */
  lemma WindowAtEnd(tokens: seq<int>, n: nat)
    requires 0 < n <= |tokens| + 2
    ensures Window(Padded(tokens), |tokens| + 1, n)
         == if n <= |tokens| + 1 then tokens[|tokens| - (n - 1)..] + [EndOfSentence] else [EndOfSentence] + tokens + [EndOfSentence]
  {
    var words := Padded(tokens);
    assert words[..|words|] == words;
    if n <= |tokens| + 1 {
      assert words[1..] == tokens + [EndOfSentence];
      assert words[|tokens| + 2 - n..] == words[1..][|tokens| + 1 - n..];
    }
  }

  /** The windows of a padded sentence are the places among its tokens, its start, and its end. */
  lemma SentenceWindows(tokens: seq<int>, n: nat, g: seq<int>)
    requires n > 0
    ensures Windows(Padded(tokens), |Padded(tokens)|, n, g) == Occurrences(tokens, n, g)
  {
    hide Inside, Known, Opens, Windows, Padded, Closes, Spans, One;
    if Known(g) {
      WindowsInside(tokens, |tokens|, n, g);
      LastWindow(tokens, n, g);
      OpensWhole(tokens, n, g);
    } else {
      NoneUnknown(Padded(tokens), |Padded(tokens)|, n, g);
    }
  }

  lemma OpensWhole(tokens: seq<int>, n: nat, g: seq<int>)
    ensures One(n <= |tokens| + 1 && Opens(tokens, n, g)) == One(Opens(tokens, n, g))
  {
  }

  lemma LastWindow(tokens: seq<int>, n: nat, g: seq<int>)
    requires n > 0 && Known(g)
    ensures |Padded(tokens)| == |tokens| + 2
    ensures Windows(Padded(tokens), |tokens| + 2, n, g)
         == Windows(Padded(tokens), |tokens| + 1, n, g) + One(Closes(tokens, n, g)) + One(Spans(tokens, n, g))
  {
    hide Known, Window, Padded;
    if n <= |tokens| + 2 {
      WindowAtEnd(tokens, n);
      assert |tokens[..|tokens|]| == |tokens|;
    }
  }

  lemma {:induction false} NoneUnknown(words: seq<int>, k: nat, n: nat, g: seq<int>)
    requires k <= |words| && !Known(g)
    ensures Windows(words, k, n, g) == 0
  {
    if k > 1 {
      NoneUnknown(words, k - 1, n, g);
    }
  }

  /** A bigram of known words is counted at every adjacent pair of tokens that it is, and at the two ends: the sentence
      start with the first token, and the last token with the sentence end. */
  lemma BigramWindows(tokens: seq<int>, a: int, b: int)
    requires tokens != [] && a != Invalid && b != Invalid
    ensures Windows(Padded(tokens), |Padded(tokens)|, 2, [a, b])
         == |set j: nat | j < |tokens| && PairAt(tokens, j, a, b)|
            + One(a == EndOfSentence && b == tokens[0]) + One(a == tokens[|tokens| - 1] && b == EndOfSentence)
  {
    hide *;
    var g := [a, b];
    SentenceWindows(tokens, 2, g);
    BigramOccurrences(tokens, a, b);
    Pairs(tokens, a, b);
    BigramEnds(tokens, a, b);
  }

  lemma BigramOccurrences(tokens: seq<int>, a: int, b: int)
    requires a != Invalid && b != Invalid
    ensures Occurrences(tokens, 2, [a, b])
         == |Inside(tokens, |tokens|, 2, [a, b])| + One(Opens(tokens, 2, [a, b])) + One(Closes(tokens, 2, [a, b]))
            + One(Spans(tokens, 2, [a, b]))
  {
    hide Inside, Opens, Closes, Spans, One;
    assert Known([a, b]);
  }

  lemma Pairs(tokens: seq<int>, a: int, b: int)
    ensures Inside(tokens, |tokens|, 2, [a, b]) == set j: nat | j < |tokens| && PairAt(tokens, j, a, b)
  {
    forall j: nat ensures StandsAt(tokens, |tokens|, 2, [a, b], j) <==> PairAt(tokens, j, a, b) {
      if j + 2 <= |tokens| {
        assert tokens[j..j + 2] == [tokens[j], tokens[j + 1]];
      }
    }
  }

  lemma BigramEnds(tokens: seq<int>, a: int, b: int)
    requires tokens != []
    ensures Opens(tokens, 2, [a, b]) <==> a == EndOfSentence && b == tokens[0]
    ensures Closes(tokens, 2, [a, b]) <==> a == tokens[|tokens| - 1] && b == EndOfSentence
    ensures !Spans(tokens, 2, [a, b])
    ensures One(false) == 0
  {
    assert [EndOfSentence] + tokens[..1] == [EndOfSentence, tokens[0]];
    assert tokens[|tokens| - 1..] + [EndOfSentence] == [tokens[|tokens| - 1], EndOfSentence];
  }

  /** a and then b, at j. */
  ghost predicate PairAt(tokens: seq<int>, j: nat, a: int, b: int) {
    j + 1 < |tokens| && tokens[j] == a && tokens[j + 1] == b
  }

  /** The occurrences in the first k sentences. */
  ghost function CorpusOccurrences(sentences: seq<seq<int>>, k: nat, n: nat, g: seq<int>): nat
    requires k <= |sentences|
  {
    if k == 0 then 0 else CorpusOccurrences(sentences, k - 1, n, g) + Occurrences(sentences[k - 1], n, g)
  }

  lemma {:induction false} CorpusWindowsAre(sentences: seq<seq<int>>, k: nat, n: nat, g: seq<int>)
    requires k <= |sentences| && n > 0
    ensures CorpusWindows(sentences, k, n, g) == CorpusOccurrences(sentences, k, n, g)
  {
    hide Windows, Occurrences;
    if k > 0 {
      CorpusWindowsAre(sentences, k - 1, n, g);
      SentenceWindows(sentences[k - 1], n, g);
    }
  }

  // ---------- the counts ----------

  /** Room for every n-gram, and nothing counted beyond them. */
  ghost predicate Counters(ls: seq<seq<Key>>, counts: seq<seq<nat>>) {
    && |counts| == |ls|
    && (forall n | 1 <= n < |ls| :: |ls[n]| <= |counts[n]| && 0 < |counts[n]|)
    && forall n, i | 1 <= n < |ls| && |ls[n]| <= i < |counts[n]| :: counts[n][i] == 0
  }

  ghost function IndexOf(ls: seq<seq<Key>>, n: nat, g: seq<int>): (i: nat)
    requires Ok(ls) && n < |ls| && Has(ls, n, g)
    ensures Spells(ls, n, i, g)
  {
    var i: nat :| Spells(ls, n, i, g);
    i
  }

  ghost function CountOf(ls: seq<seq<Key>>, counts: seq<seq<nat>>, n: nat, g: seq<int>): nat
    requires Ok(ls) && Counters(ls, counts) && 1 <= n < |ls|
  {
    if Has(ls, n, g) then counts[n][IndexOf(ls, n, g)] else 0
  }

  lemma CountAt(ls: seq<seq<Key>>, counts: seq<seq<nat>>, n: nat, i: nat, g: seq<int>)
    requires Ok(ls) && Counters(ls, counts) && 1 <= n < |ls| && Spells(ls, n, i, g)
    ensures i < |counts[n]| && CountOf(ls, counts, n, g) == counts[n][i]
  {
    hide Ok;
    SpellInjective(ls, n, i, IndexOf(ls, n, g));
  }

  /** Adding an n-gram and one to its count (or nothing) changes the count of its words and no other. */
  lemma CountAdds(ls: seq<seq<Key>>, counts: seq<seq<nat>>, more: seq<seq<nat>>, n: nat, h: nat, w: nat, index: nat, amount: nat, m: nat, g: seq<int>)
    requires Ok(ls) && Counters(ls, counts) && 1 <= n < |ls| && h < |ls[n-1]| && 1 <= m < |ls|
    requires var after := ls[n := Added(ls[n], Key(h, w))];
             && Ok(after) && Counters(after, more) && index < |after[n]| && after[n][index] == Key(h, w)
    requires forall k | 1 <= k < |ls| && k != n :: more[k] == counts[k]
    requires forall i | 0 <= i < |more[n]| ::
               more[n][i] == (if i < |counts[n]| then counts[n][i] else 0) + if i == index then amount else 0
    ensures CountOf(ls[n := Added(ls[n], Key(h, w))], more, m, g)
         == CountOf(ls, counts, m, g) + if m == n && g == Spell(ls, n - 1, h) + [w] then amount else 0
  {
    hide Ok, Extends, Added, Has;
    var after := ls[n := Added(ls[n], Key(h, w))];
    AddKeeps(ls, n, h, w);
    AddSpells(ls, n, h, w, m, g);
    SpellOf(after, n, index, h, w);
    SpellExtends(ls, after, n - 1, h);
    if Has(after, m, g) {
      var i := IndexOf(after, m, g);
      CountAt(after, more, m, i, g);
      if m == n && g == Spell(ls, n - 1, h) + [w] {
        SpellInjective(after, n, i, index);
      }
      if i < |ls[m]| {
        SpellExtends(ls, after, m, i);
        CountAt(ls, counts, m, i, g);
        assert Has(ls, m, g) by { Held(ls, m, i, g); }
      } else {
        NotBefore(ls, after, m, i, g);
      }
    }
  }

  /** No count falls, and an n-gram stored later but not before has had its count raised. */
  ghost predicate Grown(a: seq<seq<Key>>, before: seq<seq<nat>>, b: seq<seq<Key>>, after: seq<seq<nat>>)
    requires Ok(a) && Counters(a, before) && Ok(b) && Counters(b, after) && |a| == |b|
  {
    forall n: nat, g: seq<int> | 1 <= n < |a| :: GrownAt(a, before, b, after, n, g)
  }

  ghost predicate GrownAt(a: seq<seq<Key>>, before: seq<seq<nat>>, b: seq<seq<Key>>, after: seq<seq<nat>>, n: nat, g: seq<int>)
    requires Ok(a) && Counters(a, before) && Ok(b) && Counters(b, after) && |a| == |b| && 1 <= n < |a|
  {
    && CountOf(a, before, n, g) <= CountOf(b, after, n, g)
    && (Has(b, n, g) ==> Has(a, n, g) || CountOf(a, before, n, g) < CountOf(b, after, n, g))
  }

  lemma GrownFacts(a: seq<seq<Key>>, before: seq<seq<nat>>, b: seq<seq<Key>>, after: seq<seq<nat>>, n: nat, g: seq<int>)
    requires Ok(a) && Counters(a, before) && Ok(b) && Counters(b, after) && |a| == |b| && 1 <= n < |a|
    requires Grown(a, before, b, after)
    ensures GrownAt(a, before, b, after, n, g)
  {
  }

  lemma GrownSame(a: seq<seq<Key>>, before: seq<seq<nat>>)
    requires Ok(a) && Counters(a, before)
    ensures Grown(a, before, a, before)
  {
  }

  lemma GrownOn(a: seq<seq<Key>>, before: seq<seq<nat>>, b: seq<seq<Key>>, mid: seq<seq<nat>>, c: seq<seq<Key>>, after: seq<seq<nat>>)
    requires Ok(a) && Counters(a, before) && Ok(b) && Counters(b, mid) && Ok(c) && Counters(c, after) && |a| == |b| == |c|
    requires Grown(a, before, b, mid) && Grown(b, mid, c, after)
    ensures Grown(a, before, c, after)
  {
    hide Ok, Counters, CountOf, Has, Grown;
    forall n: nat, g: seq<int> | 1 <= n < |a| ensures GrownAt(a, before, c, after, n, g) {
      GrownFacts(a, before, b, mid, n, g);
      GrownFacts(b, mid, c, after, n, g);
    }
    assert Grown(a, before, c, after) by { GrownFrom(a, before, c, after); }
  }

  lemma GrownFrom(a: seq<seq<Key>>, before: seq<seq<nat>>, b: seq<seq<Key>>, after: seq<seq<nat>>)
    requires Ok(a) && Counters(a, before) && Ok(b) && Counters(b, after) && |a| == |b|
    requires forall n: nat, g: seq<int> | 1 <= n < |a| :: GrownAt(a, before, b, after, n, g)
    ensures Grown(a, before, b, after)
  {
  }

  lemma GrownAdds(ls: seq<seq<Key>>, counts: seq<seq<nat>>, more: seq<seq<nat>>, n: nat, h: nat, w: nat, index: nat)
    requires Ok(ls) && Counters(ls, counts) && 1 <= n < |ls| && h < |ls[n-1]|
    requires var after := ls[n := Added(ls[n], Key(h, w))];
             && Ok(after) && Counters(after, more) && index < |after[n]| && after[n][index] == Key(h, w)
    requires forall k | 1 <= k < |ls| && k != n :: more[k] == counts[k]
    requires forall i | 0 <= i < |more[n]| ::
               more[n][i] == (if i < |counts[n]| then counts[n][i] else 0) + if i == index then 1 else 0
    ensures Grown(ls, counts, ls[n := Added(ls[n], Key(h, w))], more)
  {
    hide Ok, Counters, CountOf, Has, Spell, Added;
    var after := ls[n := Added(ls[n], Key(h, w))];
    forall m: nat, g: seq<int> | 1 <= m < |ls| ensures GrownAt(ls, counts, after, more, m, g) {
      CountAdds(ls, counts, more, n, h, w, index, 1, m, g);
      AddSpells(ls, n, h, w, m, g);
    }
  }

  /** Words first spelled beyond the old layer were not there before. */
  lemma NotBefore(ls: seq<seq<Key>>, after: seq<seq<Key>>, m: nat, i: nat, g: seq<int>)
    requires Ok(ls) && Ok(after) && Extends(ls, after) && m < |ls| && Spells(after, m, i, g) && |ls[m]| <= i
    ensures !Has(ls, m, g)
  {
    hide Ok;
    if Has(ls, m, g) {
      var j: nat :| Spells(ls, m, j, g);
      SpellExtends(ls, after, m, j);
      SpellInjective(after, m, i, j);
    }
  }

  /** Adding an n-gram whose suffix is there keeps the trie closed. */
  lemma ClosedAdds(ls: seq<seq<Key>>, n: nat, h: nat, w: nat)
    requires Ok(ls) && Closed(ls) && 1 <= n < |ls| && h < |ls[n-1]|
    requires n >= 2 ==> Has(ls, n - 1, (Spell(ls, n - 1, h) + [w])[1..])
    ensures Ok(ls[n := Added(ls[n], Key(h, w))]) && Closed(ls[n := Added(ls[n], Key(h, w))])
  {
    hide Ok, Extends, Has, Spell;
    AddKeeps(ls, n, h, w);
    var after := ls[n := Added(ls[n], Key(h, w))];
    forall m, g: seq<int> | 2 <= m < |after| && |g| == m && Has(after, m, g) ensures SuffixHeld(after, m, g) {
      AddSpells(ls, n, h, w, m, g);
      if Has(ls, m, g) {
        assert SuffixHeld(ls, m, g);
      }
      HasExtends(ls, after, m - 1, g[1..]);
    }
  }

  // ---------- the sliding histories ----------

  /** hist is the n-gram of the n words that end at position i, or Invalid if one of them is unknown. */
  ghost predicate Follows(ls: seq<seq<Key>>, words: seq<int>, i: nat, n: nat, hist: int)
    requires Ok(ls) && n < |ls| && n <= i + 1 <= |words|
  {
    if Known(Window(words, i, n)) then 0 <= hist && Spells(ls, n, hist, Window(words, i, n)) else hist == Invalid
  }

  lemma FollowsExtends(a: seq<seq<Key>>, b: seq<seq<Key>>, words: seq<int>, i: nat, n: nat, hist: int)
    requires Ok(a) && Ok(b) && Extends(a, b) && n < |a| && n <= i + 1 <= |words| && Follows(a, words, i, n, hist)
    ensures n < |b| && Follows(b, words, i, n, hist)
  {
    hide Ok;
    if Known(Window(words, i, n)) {
      SpellExtends(a, b, n, hist);
    }
  }

  /** The n words that end at i are the n - 1 that end before it and the one at i. */
  lemma WindowSplits(words: seq<int>, i: nat, n: nat)
    requires 1 <= n <= i + 1 <= |words| && i > 0
    ensures Window(words, i, n) == Window(words, i - 1, n - 1) + [words[i]]
    ensures Known(Window(words, i, n)) <==> Known(Window(words, i - 1, n - 1)) && words[i] != Invalid
    ensures Window(words, i, n)[1..] == Window(words, i, n - 1)
    ensures Known(Window(words, i, n)) ==> Known(Window(words, i, n - 1))
  {
    var g, p := Window(words, i, n), Window(words, i - 1, n - 1);
    assert g == p + [words[i]];
    if Known(g) {
      forall k | 0 <= k < |p| ensures p[k] != Invalid {
        assert g[k] == p[k];
      }
      assert g[n-1] == words[i];
      var t := Window(words, i, n - 1);
      forall k | 0 <= k < |t| ensures t[k] != Invalid {
        assert g[k+1] == t[k];
      }
    }
  }

  // ---------- the loops ----------

  /** At word i with orders below j done: their histories end at i, and the others' still at i - 1. */
  ghost predicate Sliding(ls: seq<seq<Key>>, words: seq<int>, i: nat, j: nat, hists: seq<int>)
    requires Ok(ls) && 1 <= i <= |words|
  {
    && |hists| == |ls|
    && (forall n | 1 <= n < |ls| && n < j && n <= i + 1 <= |words| :: Follows(ls, words, i, n, hists[n]))
    && forall n | j <= n < |ls| && n <= i :: Follows(ls, words, i - 1, n, hists[n])
  }

  /** ... and their windows are counted up to word i, the others' up to word i - 1, on top of what was counted. */
  ghost predicate Tallied(ls: seq<seq<Key>>, counts: seq<seq<nat>>, base: (nat, seq<int>) -> nat, words: seq<int>, i: nat, j: nat)
    requires Ok(ls) && Counters(ls, counts) && i <= |words|
  {
    forall n: nat, g: seq<int> | 1 <= n < |ls| ::
      CountOf(ls, counts, n, g) == base(n, g) + Windows(words, if n < j && i < |words| then i + 1 else i, n, g)
  }

  lemma SlidingStep(a: seq<seq<Key>>, b: seq<seq<Key>>, words: seq<int>, i: nat, j: nat, hists: seq<int>, hist: int)
    requires Ok(a) && Ok(b) && Extends(a, b) && 1 <= i < |words| && 1 <= j < |a| && j <= i + 1
    requires Sliding(a, words, i, j, hists) && Follows(b, words, i, j, hist)
    ensures |hists| == |a| && Sliding(b, words, i, j + 1, hists[j := hist])
  {
    hide Ok, Follows;
    ExtendsSizes(a, b);
    var after := hists[j := hist];
    forall n | 1 <= n < |b| && n < j + 1 && n <= i + 1 ensures Follows(b, words, i, n, after[n]) {
      if n < j {
        FollowsExtends(a, b, words, i, n, hists[n]);
      }
    }
    forall n | j + 1 <= n < |b| && n <= i ensures Follows(b, words, i - 1, n, after[n]) {
      FollowsExtends(a, b, words, i - 1, n, hists[n]);
    }
  }

  /** A window with an unknown word is not counted. */
  lemma UnknownStep(ls: seq<seq<Key>>, counts: seq<seq<nat>>, base: (nat, seq<int>) -> nat, words: seq<int>, i: nat, j: nat)
    requires Ok(ls) && Counters(ls, counts) && 1 <= i < |words| && j <= i + 1 && Tallied(ls, counts, base, words, i, j)
    requires !Known(Window(words, i, j))
    ensures Tallied(ls, counts, base, words, i, j + 1)
  {
    hide Ok, CountOf, Counters, Known, Window;
  }

  /** A window longer than the words so far does not exist. */
  lemma TallyEnds(ls: seq<seq<Key>>, counts: seq<seq<nat>>, base: (nat, seq<int>) -> nat, words: seq<int>, i: nat, j: nat)
    requires Ok(ls) && Counters(ls, counts) && 1 <= i < |words| && Tallied(ls, counts, base, words, i, j)
    requires j == |ls| || j == i + 2
    ensures Tallied(ls, counts, base, words, i + 1, 1)
  {
    hide Ok, CountOf, Counters, Known, Window;
  }

  /** A window with all words known is counted once. */
  lemma KnownStep(ls: seq<seq<Key>>, counts: seq<seq<nat>>, more: seq<seq<nat>>, base: (nat, seq<int>) -> nat, words: seq<int>, i: nat, j: nat,
                  h: nat, w: nat, index: nat)
    requires Ok(ls) && Counters(ls, counts) && 1 <= j < |ls| && h < |ls[j-1]| && 1 <= i < |words| && j <= i + 1
    requires Tallied(ls, counts, base, words, i, j)
    requires var after := ls[j := Added(ls[j], Key(h, w))];
             && Ok(after) && Counters(after, more) && index < |after[j]| && after[j][index] == Key(h, w)
    requires forall k | 1 <= k < |ls| && k != j :: more[k] == counts[k]
    requires forall k | 0 <= k < |more[j]| ::
               more[j][k] == (if k < |counts[j]| then counts[j][k] else 0) + if k == index then 1 else 0
    requires Spell(ls, j - 1, h) + [w] == Window(words, i, j) && Known(Window(words, i, j))
    ensures Tallied(ls[j := Added(ls[j], Key(h, w))], more, base, words, i, j + 1)
  {
    hide Ok, CountOf, Counters, Known, Window, Added, Spell, Spells;
    var after := ls[j := Added(ls[j], Key(h, w))];
    forall n: nat, g: seq<int> | 1 <= n < |after|
      ensures CountOf(after, more, n, g) == base(n, g) + Windows(words, if n < j + 1 then i + 1 else i, n, g)
    {
      CountAdds(ls, counts, more, j, h, w, index, 1, n, g);
      assert n == j ==> (At(words, i, n, g) <==> g == Window(words, i, j));
    }
  }

  /** Counts one n-gram, adding it first if it is new. */
  method CountOne(m: NgramModel, counts: seq<seq<nat>>, n: nat, hist: nat, word: nat) returns (index: nat, more: seq<seq<nat>>)
    requires m.Valid() && Counters(m.Layers(), counts) && 1 <= n < |m.vectors| && hist < |m.Layers()[n-1]|
    modifies m.vectors[n]
    ensures m.Valid() && m.Layers() == old(m.Layers()[n := Added(m.Layers()[n], Key(hist, word))])
    ensures index < |m.Layers()[n]| && m.Layers()[n][index] == Key(hist, word)
    ensures Counters(m.Layers(), more) && forall k | 1 <= k < |m.vectors| && k != n :: more[k] == counts[k]
    ensures forall i | 0 <= i < |more[n]| ::
              more[n][i] == (if i < |counts[n]| then counts[n][i] else 0) + if i == index then 1 else 0
  {
    hide NgramModel.Valid;
    var isNew;
    index, isNew := m.Add(n, hist, word);
    more := counts;
    if isNew && index >= |more[n]| {
      more := more[n := more[n] + seq(|more[n]|, _ => 0)];
    }
    more := more[n := more[n][index := more[n][index] + 1]];
  }

  /** The whole state of the count, between sentences or within one. */
  ghost predicate State(ls: seq<seq<Key>>, counts: seq<seq<nat>>, base: (nat, seq<int>) -> nat, words: seq<int>, hists: seq<int>, i: nat, j: nat) {
    && Ok(ls) && Closed(ls) && Counters(ls, counts) && 1 <= i <= |words|
    && Sliding(ls, words, i, j, hists) && Tallied(ls, counts, base, words, i, j)
  }

  lemma StateParts(ls: seq<seq<Key>>, counts: seq<seq<nat>>, base: (nat, seq<int>) -> nat, words: seq<int>, hists: seq<int>, i: nat, j: nat)
    requires State(ls, counts, base, words, hists, i, j)
    ensures Ok(ls) && Closed(ls) && Counters(ls, counts) && 1 <= i <= |words| && |hists| == |ls|
    ensures Sliding(ls, words, i, j, hists) && Tallied(ls, counts, base, words, i, j)
  {
  }

  /** What the history for order j spells: the j - 1 words before word i. */
  ghost predicate HistoryOk(ls: seq<seq<Key>>, words: seq<int>, i: nat, j: nat, hist: int) {
    && Ok(ls) && 1 <= j <= |ls| && 1 <= i < |words| && j <= i + 1 && Follows(ls, words, i - 1, j - 1, hist)
  }

  lemma EmptyHistory(ls: seq<seq<Key>>, words: seq<int>, i: nat)
    requires Ok(ls) && 1 <= i < |words|
    ensures HistoryOk(ls, words, i, 1, 0)
  {
    assert Spells(ls, 0, 0, []);
  }

  lemma NextHistory(a: seq<seq<Key>>, b: seq<seq<Key>>, words: seq<int>, i: nat, j: nat, hists: seq<int>)
    requires Ok(a) && Ok(b) && Extends(a, b) && 1 <= i < |words| && 1 <= j < |a| && Sliding(a, words, i, j, hists)
    requires j + 1 <= i + 1
    ensures HistoryOk(b, words, i, j + 1, hists[j])
  {
    hide Ok;
    FollowsExtends(a, b, words, i - 1, j, hists[j]);
  }

  /** The suffix of the window is the window of one word less, counted just before. */
  lemma SuffixThere(ls: seq<seq<Key>>, words: seq<int>, i: nat, j: nat, hists: seq<int>)
    requires Ok(ls) && 1 <= i < |words| && 2 <= j < |ls| && j <= i + 1 && Sliding(ls, words, i, j, hists)
    requires Known(Window(words, i, j))
    ensures Has(ls, j - 1, Window(words, i, j)[1..])
  {
    hide Ok, Known, Window;
    WindowSplits(words, i, j);
    assert Follows(ls, words, i, j - 1, hists[j-1]);
    Held(ls, j - 1, hists[j-1], Window(words, i, j - 1));
  }

  /** One order of one word. */
  method CountOrder(m: NgramModel, counts: seq<seq<nat>>, words: seq<int>, hists: seq<int>, i: nat, j: nat, hist: int,
                    ghost base: (nat, seq<int>) -> nat)
    returns (next: int, more: seq<seq<nat>>, slid: seq<int>)
    requires m.Valid() && 1 <= j < |m.vectors| && j <= i + 1 && i < |words| && words[i] >= Invalid
    requires State(m.Layers(), counts, base, words, hists, i, j) && HistoryOk(m.Layers(), words, i, j, hist)
    modifies m.vectors[j]
    ensures m.Valid() && m.vectors == old(m.vectors)
    ensures State(m.Layers(), more, base, words, slid, i, j + 1)
    ensures j + 1 <= i + 1 ==> HistoryOk(m.Layers(), words, i, j + 1, next)
    ensures Extends(old(m.Layers()), m.Layers()) && Grown(old(m.Layers()), counts, m.Layers(), more)
  {
    hide NgramVector.Valid, NgramVector.Usable, Ok, Closed, Sliding, Tallied, Known, Window, Counters, Extends, Grown;
    var word := words[i];
    ghost var ls := m.Layers();
    StateParts(ls, counts, base, words, hists, i, j);
    WindowSplits(words, i, j);
    next, slid := hists[j], hists;
    if word != Invalid && hist != Invalid {
      var index;
      index, more := CountOne(m, counts, j, hist, word);
      AddKeeps(ls, j, hist, word);
      if j >= 2 {
        SuffixThere(ls, words, i, j, hists);
      }
      ClosedAdds(ls, j, hist, word);
      KnownStep(ls, counts, more, base, words, i, j, hist, word, index);
      GrownAdds(ls, counts, more, j, hist, word, index);
      NowFollows(ls, m.Layers(), words, i, j, hist, word, index);
      SlidingStep(ls, m.Layers(), words, i, j, hists, index);
      slid := slid[j := index];
    } else {
      more := counts;
      ExtendsItself(ls);
      GrownSame(ls, counts);
      UnknownStep(ls, counts, base, words, i, j);
      SlidingStep(ls, ls, words, i, j, hists, Invalid);
      slid := slid[j := Invalid];
    }
    if j + 1 <= i + 1 {
      NextHistory(ls, m.Layers(), words, i, j, hists);
    }
  }

  lemma ExtendsItself(ls: seq<seq<Key>>)
    ensures Extends(ls, ls)
  {
  }

  lemma NowFollows(ls: seq<seq<Key>>, after: seq<seq<Key>>, words: seq<int>, i: nat, j: nat, h: nat, w: nat, index: nat)
    requires Ok(ls) && Ok(after) && Extends(ls, after) && 1 <= j < |ls| && h < |ls[j-1]| && j <= i + 1 <= |words|
    requires index < |after[j]| && after[j][index] == Key(h, w)
    requires Spell(ls, j - 1, h) + [w] == Window(words, i, j) && Known(Window(words, i, j))
    ensures Follows(after, words, i, j, index)
  {
    hide Ok, Known, Window;
    SpellOf(after, j, index, h, w);
    SpellExtends(ls, after, j - 1, h);
  }

  lemma ExtendsOn(a: seq<seq<Key>>, b: seq<seq<Key>>, c: seq<seq<Key>>)
    requires Extends(a, b) && Extends(b, c)
    ensures Extends(a, c)
  {
    forall n | 0 <= n < |a| ensures a[n] <= c[n] {
      assert a[n] <= b[n] && b[n] <= c[n];
    }
  }

  /** All orders of one word. */
  method CountWord(m: NgramModel, counts: seq<seq<nat>>, words: seq<int>, hists: seq<int>, i: nat, ghost base: (nat, seq<int>) -> nat)
    returns (more: seq<seq<nat>>, slid: seq<int>)
    requires m.Valid() && |m.vectors| > 1 && i < |words| && words[i] >= Invalid
    requires State(m.Layers(), counts, base, words, hists, i, 1)
    modifies m.vectors
    ensures m.Valid() && m.vectors == old(m.vectors)
    ensures State(m.Layers(), more, base, words, slid, i + 1, 1)
    ensures Extends(old(m.Layers()), m.Layers()) && Grown(old(m.Layers()), counts, m.Layers(), more)
  {
    hide NgramVector.Valid, NgramVector.Usable, Ok, State, HistoryOk, Extends, Counters, Grown;
    more, slid := counts, hists;
    ghost var was := m.Layers();
    StateParts(was, counts, base, words, hists, i, 1);
    EmptyHistory(was, words, i);
    ExtendsItself(was);
    GrownSame(was, counts);
    var hist, j := 0, 1;
    while j < |m.vectors| && j < i + 2
      modifies m.vectors
      invariant m.Valid() && m.vectors == old(m.vectors)
      invariant 1 <= j <= |m.vectors| && j <= i + 2
      invariant State(m.Layers(), more, base, words, slid, i, j)
      invariant j <= i + 1 ==> HistoryOk(m.Layers(), words, i, j, hist)
      invariant Extends(was, m.Layers()) && Counters(m.Layers(), more) && Grown(was, counts, m.Layers(), more)
    {
      ghost var now, sofar := m.Layers(), more;
      hist, more, slid := CountOrder(m, more, words, slid, i, j, hist, base);
      StateParts(m.Layers(), more, base, words, slid, i, j + 1);
      ExtendsOn(was, now, m.Layers());
      GrownOn(was, counts, now, sofar, m.Layers(), more);
      j := j + 1;
    }
    WordDone(m.Layers(), more, base, words, slid, i, j);
  }

  lemma WordDone(ls: seq<seq<Key>>, counts: seq<seq<nat>>, base: (nat, seq<int>) -> nat, words: seq<int>, hists: seq<int>, i: nat, j: nat)
    requires State(ls, counts, base, words, hists, i, j) && i < |words| && j <= |ls|
    requires j == |ls| || j == i + 2
    ensures State(ls, counts, base, words, hists, i + 1, 1)
  {
    hide Ok, Closed, Counters, Tallied, Follows;
    TallyEnds(ls, counts, base, words, i, j);
  }

  /** Counts one sentence. Counts of all n-grams grow by the windows of the padded sentence that spell them; the
      sentence start on its own is added without being counted. */
  method CountSentence(m: NgramModel, counts: seq<seq<nat>>, tokens: seq<int>, stale: seq<int>) returns (more: seq<seq<nat>>, hists: seq<int>)
    requires m.Valid() && |m.vectors| > 1 && Closed(m.Layers()) && Counters(m.Layers(), counts) && |stale| == |m.vectors|
    requires Key(0, 0) in m.Layers()[1] || |m.Layers()[1]| < |counts[1]|
    requires forall k | 0 <= k < |tokens| :: tokens[k] >= Invalid
    modifies m.vectors
    ensures m.Valid() && m.vectors == old(m.vectors) && Closed(m.Layers()) && Counters(m.Layers(), more)
    ensures Key(0, 0) in m.Layers()[1] && |hists| == |m.vectors|
    ensures Extends(old(m.Layers()), m.Layers())
    ensures forall n: nat, g: seq<int> | 1 <= n < |m.vectors| ::
              CountOf(m.Layers(), more, n, g) == old(CountOf(m.Layers(), counts, n, g))
                                                 + Windows(Padded(tokens), |Padded(tokens)|, n, g)
    ensures forall n: nat, g: seq<int> | 1 <= n < |m.vectors| :: Has(m.Layers(), n, g) <==>
              old(Has(m.Layers(), n, g)) || Starts(n, g) || Windows(Padded(tokens), |Padded(tokens)|, n, g) > 0
    ensures forall n: nat, g: seq<int> | 1 <= n < |m.vectors| ::
              CountOf(m.Layers(), more, n, g) == old(CountOf(m.Layers(), counts, n, g)) + Occurrences(tokens, n, g)
  {
    hide NgramVector.Valid, NgramVector.Usable, Ok, State, Extends, Counters, CountOf, Closed, Windows, Grown, Has, Starts;
    var words := [EndOfSentence] + tokens + [EndOfSentence];
    ghost var was := m.Layers();
    ghost var base := (n: nat, g: seq<int>) => if 1 <= n < |was| then CountOf(was, counts, n, g) else 0;
    ZerothLayer(was);
    var index, _ := m.Add(1, 0, EndOfSentence);
    hists := stale[1 := index];
    AddKeeps(was, 1, 0, EndOfSentence);
    SentenceStarts(was, m.Layers(), counts, words, hists, base);
    ghost var start := m.Layers();
    more, hists := CountWords(m, counts, words, hists, base);
    ExtendsOn(was, start, m.Layers());
    StaysThere(start, m.Layers(), Key(0, 0));
    SentenceCounted(was, start, m.Layers(), counts, more, base, words);
    hide Occurrences;
    forall n: nat, g: seq<int> | 1 <= n < |m.vectors|
      ensures Windows(words, |words|, n, g) == Occurrences(tokens, n, g)
    {
      SentenceWindows(tokens, n, g);
    }
  }

  /** All words of a sentence whose start is there. */
  method CountWords(m: NgramModel, counts: seq<seq<nat>>, words: seq<int>, start: seq<int>, ghost base: (nat, seq<int>) -> nat)
    returns (more: seq<seq<nat>>, hists: seq<int>)
    requires m.Valid() && |m.vectors| > 1 && |words| > 1
    requires forall k | 0 <= k < |words| :: words[k] >= Invalid
    requires State(m.Layers(), counts, base, words, start, 1, 1)
    modifies m.vectors
    ensures m.Valid() && m.vectors == old(m.vectors)
    ensures Ok(m.Layers()) && Closed(m.Layers()) && Counters(m.Layers(), more) && |hists| == |m.Layers()|
    ensures Tallied(m.Layers(), more, base, words, |words|, 1)
    ensures Extends(old(m.Layers()), m.Layers())
    ensures Ok(old(m.Layers())) && Counters(old(m.Layers()), counts) && Grown(old(m.Layers()), counts, m.Layers(), more)
  {
    hide NgramVector.Valid, NgramVector.Usable, Ok, State, Extends, Counters, Closed, Grown;
    more, hists := counts, start;
    ghost var was := m.Layers();
    StateParts(was, counts, base, words, hists, 1, 1);
    ExtendsItself(was);
    GrownSame(was, counts);
    for i := 1 to |words|
      modifies m.vectors
      invariant m.Valid() && m.vectors == old(m.vectors)
      invariant State(m.Layers(), more, base, words, hists, i, 1)
      invariant Extends(was, m.Layers()) && Counters(m.Layers(), more) && Grown(was, counts, m.Layers(), more)
    {
      ghost var now, sofar := m.Layers(), more;
      more, hists := CountWord(m, more, words, hists, i, base);
      StateParts(m.Layers(), more, base, words, hists, i + 1, 1);
      ExtendsOn(was, now, m.Layers());
      GrownOn(was, counts, now, sofar, m.Layers(), more);
    }
    StateParts(m.Layers(), more, base, words, hists, |words|, 1);
  }

  lemma SentenceCounted(was: seq<seq<Key>>, start: seq<seq<Key>>, ls: seq<seq<Key>>, counts: seq<seq<nat>>,
                        more: seq<seq<nat>>, base: (nat, seq<int>) -> nat, words: seq<int>)
    requires Ok(was) && Ok(start) && Ok(ls) && Counters(was, counts) && Counters(start, counts) && Counters(ls, more)
    requires |was| > 1 && |was[0]| == 1 && start == was[1 := Added(was[1], Key(0, 0))]
    requires Extends(start, ls) && |was| == |start| == |ls| && Grown(start, counts, ls, more)
    requires Tallied(ls, more, base, words, |words|, 1)
    requires forall n: nat, g: seq<int> | 1 <= n < |was| :: base(n, g) == CountOf(was, counts, n, g)
    ensures forall n: nat, g: seq<int> | 1 <= n < |ls| ::
              CountOf(ls, more, n, g) == CountOf(was, counts, n, g) + Windows(words, |words|, n, g)
    ensures forall n: nat, g: seq<int> | 1 <= n < |ls| ::
              Has(ls, n, g) <==> Has(was, n, g) || Starts(n, g) || Windows(words, |words|, n, g) > 0
  {
    hide Ok, Extends, Counters, Grown, Has, Added, Starts, CountOf, Windows;
    TallyFacts(ls, more, base, words);
    forall n: nat, g: seq<int> | 1 <= n < |ls|
      ensures Has(ls, n, g) <==> Has(was, n, g) || Starts(n, g) || Windows(words, |words|, n, g) > 0
    {
      StoredWhenCounted(was, start, ls, counts, more, n, g);
    }
  }

  /** g is the sentence start on its own. */
  ghost predicate Starts(n: nat, g: seq<int>) {
    n == 1 && g == [EndOfSentence]
  }

  /** Once the sentence start is added, what is stored is what was stored, the start, and what was counted. */
  lemma StoredWhenCounted(was: seq<seq<Key>>, start: seq<seq<Key>>, ls: seq<seq<Key>>, counts: seq<seq<nat>>,
                          more: seq<seq<nat>>, n: nat, g: seq<int>)
    requires Ok(was) && Ok(start) && Ok(ls) && Counters(was, counts) && Counters(start, counts) && Counters(ls, more)
    requires |was| > 1 && |was[0]| == 1 && start == was[1 := Added(was[1], Key(0, 0))]
    requires Extends(start, ls) && Grown(start, counts, ls, more) && 1 <= n < |ls|
    ensures |was| == |start| == |ls|
    ensures Has(ls, n, g) <==> Has(was, n, g) || Starts(n, g) || CountOf(ls, more, n, g) > CountOf(was, counts, n, g)
  {
    hide Ok, Extends, Counters, Grown, Has, Added;
    ExtendsSizes(start, ls);
    GrownFacts(start, counts, ls, more, n, g);
    AddSpells(was, 1, 0, 0, n, g);
    assert Spell(was, 0, 0) + [0] == [EndOfSentence];
    AddKeeps(was, 1, 0, 0);
    if Has(start, n, g) {
      HasExtends(start, ls, n, g);
    }
    if Has(was, n, g) {
      HasExtends(was, start, n, g);
    }
    CountSame(was, start, counts, n, g);
  }

  /** Adding the sentence start uncounted changes no count. */
  lemma CountSame(was: seq<seq<Key>>, start: seq<seq<Key>>, counts: seq<seq<nat>>, n: nat, g: seq<int>)
    requires Ok(was) && Ok(start) && Counters(was, counts) && Counters(start, counts)
    requires |was| > 1 && |was[0]| == 1 && start == was[1 := Added(was[1], Key(0, 0))] && 1 <= n < |was|
    ensures CountOf(start, counts, n, g) == CountOf(was, counts, n, g)
  {
    hide Ok, CountOf, Has, Spell;
    var index :| 0 <= index < |start[1]| && start[1][index] == Key(0, 0);
    CountAdds(was, counts, counts, 1, 0, 0, index, 0, n, g);
  }

  lemma StaysThere(a: seq<seq<Key>>, b: seq<seq<Key>>, k: Key)
    requires Extends(a, b) && |a| > 1 && k in a[1]
    ensures k in b[1]
  {
    assert a[1] <= b[1];
  }

  lemma TallyFacts(ls: seq<seq<Key>>, counts: seq<seq<nat>>, base: (nat, seq<int>) -> nat, words: seq<int>)
    requires Ok(ls) && Counters(ls, counts) && Tallied(ls, counts, base, words, |words|, 1)
    ensures forall n: nat, g: seq<int> | 1 <= n < |ls| :: CountOf(ls, counts, n, g) == base(n, g) + Windows(words, |words|, n, g)
  {
  }

  /** The sentence start is there, uncounted, and nothing else has changed. */
  lemma SentenceStarts(was: seq<seq<Key>>, ls: seq<seq<Key>>, counts: seq<seq<nat>>, words: seq<int>, hists: seq<int>, base: (nat, seq<int>) -> nat)
    requires Ok(was) && Closed(was) && Counters(was, counts) && |was| > 1 && |was[0]| == 1
    requires Ok(ls) && ls == was[1 := Added(was[1], Key(0, 0))]
    requires Key(0, 0) in was[1] || |was[1]| < |counts[1]|
    requires |words| > 1 && words[0] == 0 && |hists| == |was|
    requires 0 <= hists[1] < |ls[1]| && ls[1][hists[1]] == Key(0, 0)
    requires forall n: nat, g: seq<int> | 1 <= n < |was| :: base(n, g) == CountOf(was, counts, n, g)
    ensures State(ls, counts, base, words, hists, 1, 1)
  {
    hide Ok, Closed, CountOf, Has;
    assert Counters(ls, counts);
    ClosedAdds(was, 1, 0, 0);
    forall n: nat, g: seq<int> | 1 <= n < |ls| ensures CountOf(ls, counts, n, g) == base(n, g) {
      CountAdds(was, counts, counts, 1, 0, 0, hists[1], 0, n, g);
    }
    SpellOf(ls, 1, hists[1], 0, 0);
    assert Window(words, 0, 1) == [0];
  }

  // ---------- longer n-grams are no more frequent than their suffixes ----------

  /** Every window of n words holds one of n - 1, its last ones. */
  lemma {:induction false} WindowsShrink(words: seq<int>, k: nat, n: nat, g: seq<int>)
    requires k <= |words| && n >= 1 && |g| == n
    ensures Windows(words, k, n, g) <= Windows(words, k, n - 1, g[1..])
  {
    if k > 1 {
      WindowsShrink(words, k - 1, n, g);
      if At(words, k - 1, n, g) {
        WindowSplits(words, k - 1, n);
      }
    }
  }

  lemma {:induction false} CorpusShrinks(sentences: seq<seq<int>>, k: nat, n: nat, g: seq<int>)
    requires k <= |sentences| && n >= 1 && |g| == n
    ensures CorpusWindows(sentences, k, n, g) <= CorpusWindows(sentences, k, n - 1, g[1..])
  {
    if k > 0 {
      CorpusShrinks(sentences, k - 1, n, g);
      WindowsShrink(Padded(sentences[k-1]), |Padded(sentences[k-1])|, n, g);
    }
  }

  /** No n-gram counts more than its suffix. */
  ghost predicate Shrinks(ls: seq<seq<Key>>, counts: seq<seq<nat>>)
    requires Ok(ls) && Counters(ls, counts)
  {
    forall n, g: seq<int> | 2 <= n < |ls| && |g| == n :: ShrinksAt(ls, counts, n, g)
  }

  ghost predicate ShrinksAt(ls: seq<seq<Key>>, counts: seq<seq<nat>>, n: nat, g: seq<int>)
    requires Ok(ls) && Counters(ls, counts) && 2 <= n < |ls| && |g| == n
  {
    CountOf(ls, counts, n, g) <= CountOf(ls, counts, n - 1, g[1..])
  }

  /** Counting a corpus keeps it so. */
  lemma CountedShrinks(was: seq<seq<Key>>, counts: seq<seq<nat>>, ls: seq<seq<Key>>, more: seq<seq<nat>>, sentences: seq<seq<int>>)
    requires Ok(was) && Counters(was, counts) && Ok(ls) && Counters(ls, more) && |was| == |ls| && Shrinks(was, counts)
    requires forall n: nat, g: seq<int> | 1 <= n < |ls| ::
               CountOf(ls, more, n, g) == CountOf(was, counts, n, g) + CorpusWindows(sentences, |sentences|, n, g)
    ensures Shrinks(ls, more)
  {
    hide Ok, Counters, CountOf, CorpusWindows;
    forall n, g: seq<int> | 2 <= n < |ls| && |g| == n ensures ShrinksAt(ls, more, n, g) {
      assert ShrinksAt(was, counts, n, g);
      CorpusShrinks(sentences, |sentences|, n, g);
    }
  }

  /** Sorting moves each count with its n-gram: the count of the renamed words is what it was. */
  lemma CountsSorted(was: seq<seq<Key>>, now: seq<seq<Key>>, vocabMap: seq<nat>, ngramMap: seq<seq<nat>>,
                     counts: seq<seq<nat>>, sorted: seq<seq<nat>>, n: nat, i: nat)
    requires Ok(was) && Ok(now) && Sorted(was, now, vocabMap, ngramMap, |was|) && 1 <= n < |was| && i < |was[n]|
    requires Counters(was, counts) && Counters(now, sorted) && |ngramMap[n]| == |was[n]|
    requires ngramMap[n][i] < |sorted[n]| && sorted[n][ngramMap[n][i]] == counts[n][i]
    ensures CountOf(now, sorted, n, Renamed(vocabMap, Spell(was, n, i))) == CountOf(was, counts, n, Spell(was, n, i))
  {
    hide Ok, Carried, Counters, CountOf;
    SpellCarried(was, now, vocabMap, ngramMap, |was|, n, i);
    CountAt(was, counts, n, i, Spell(was, n, i));
    CountAt(now, sorted, n, ngramMap[n][i], Renamed(vocabMap, Spell(was, n, i)));
  }
}
