/** Loading a corpus: reading and counting its lines, completing the unigrams, sorting, and linking. */
module CorpusLoading {
  import opened Sorting
  import opened Probing
  import opened NgramVectors
  import opened Layers
  import opened NgramModels
  import opened Merging
  import opened CorpusCounts
  import opened CountedModels
  import opened Corpora
  import MergedModels
  import Vocabs

  /** All words of the n-grams are words of the vocabulary. */
  ghost predicate WordsBelow(ls: seq<seq<Key>>, vocab: nat) {
    forall n, i | 1 <= n < |ls| && 0 <= i < |ls[n]| :: ls[n][i].word < vocab
  }

  // ---------- counting the lines ----------

  lemma {:induction false} CorpusStays(a: seq<seq<int>>, b: seq<seq<int>>, k: nat, n: nat, g: seq<int>)
    requires k <= |a|
    ensures CorpusWindows(a + b, k, n, g) == CorpusWindows(a, k, n, g)
  {
    hide Windows;
    if k > 0 {
      CorpusStays(a, b, k - 1, n, g);
      assert (a + b)[k-1] == a[k-1];
    }
  }

  lemma CorpusNext(a: seq<seq<int>>, s: seq<int>, n: nat, g: seq<int>)
    ensures CorpusWindows(a + [s], |a| + 1, n, g) == CorpusWindows(a, |a|, n, g) + Windows(Padded(s), |Padded(s)|, n, g)
  {
    hide Windows;
    CorpusStays(a, [s], |a|, n, g);
    assert (a + [s])[|a|] == s;
  }

  /** The counts have grown by the windows of the sentences, and nothing else is stored but their start. */
  ghost predicate CountedBy(was: seq<seq<Key>>, counts: seq<seq<nat>>, ls: seq<seq<Key>>, more: seq<seq<nat>>, sents: seq<seq<int>>) {
    && Ok(was) && Counters(was, counts) && Ok(ls) && Counters(ls, more) && |was| == |ls|
    && (forall n: nat, g: seq<int> | 1 <= n < |ls| ::
          CountOf(ls, more, n, g) == CountOf(was, counts, n, g) + CorpusWindows(sents, |sents|, n, g))
    && forall n: nat, g: seq<int> | 1 <= n < |ls| ::
         Has(ls, n, g) <==> Has(was, n, g) || (sents != [] && Starts(n, g)) || CorpusWindows(sents, |sents|, n, g) > 0
  }

  lemma CountedNone(was: seq<seq<Key>>, counts: seq<seq<nat>>)
    requires Ok(was) && Counters(was, counts)
    ensures CountedBy(was, counts, was, counts, [])
  {
  }

  lemma CountedNext(was: seq<seq<Key>>, counts: seq<seq<nat>>, mid: seq<seq<Key>>, some: seq<seq<nat>>,
                    ls: seq<seq<Key>>, more: seq<seq<nat>>, sents: seq<seq<int>>, s: seq<int>)
    requires CountedBy(was, counts, mid, some, sents) && Ok(ls) && Counters(ls, more) && |ls| == |was|
    requires forall n: nat, g: seq<int> | 1 <= n < |ls| ::
               CountOf(ls, more, n, g) == CountOf(mid, some, n, g) + Windows(Padded(s), |Padded(s)|, n, g)
    requires forall n: nat, g: seq<int> | 1 <= n < |ls| ::
               Has(ls, n, g) <==> Has(mid, n, g) || Starts(n, g) || Windows(Padded(s), |Padded(s)|, n, g) > 0
    ensures CountedBy(was, counts, ls, more, sents + [s])
  {
    hide Ok, Counters, CountOf, Has, Windows, CorpusWindows, Starts;
    forall n: nat, g: seq<int> | 1 <= n < |ls|
      ensures CorpusWindows(sents + [s], |sents + [s]|, n, g)
           == CorpusWindows(sents, |sents|, n, g) + Windows(Padded(s), |Padded(s)|, n, g)
    {
      CorpusNext(sents, s, n, g);
    }
  }

  /** What is counted ends in a word of the text. */
  lemma {:induction false} LastCounted(words: seq<int>, k: nat, n: nat, g: seq<int>)
    requires k <= |words| && n > 0
    ensures Windows(words, k, n, g) > 0 ==> |g| == n && g[n-1] in words
  {
    if k > 1 {
      LastCounted(words, k - 1, n, g);
      if At(words, k - 1, n, g) {
        assert g[n-1] == words[k-1];
      }
    }
  }

  lemma {:induction false} LastOfCorpus(sents: seq<seq<int>>, k: nat, n: nat, g: seq<int>, vocab: nat)
    requires k <= |sents| && n > 0 && vocab > 0
    requires forall s, i | 0 <= s < |sents| && 0 <= i < |sents[s]| :: sents[s][i] < vocab
    ensures CorpusWindows(sents, k, n, g) > 0 ==> |g| == n && g[n-1] < vocab
  {
    hide Windows;
    if k > 0 {
      LastOfCorpus(sents, k - 1, n, g, vocab);
      LastCounted(Padded(sents[k-1]), |Padded(sents[k-1])|, n, g);
    }
  }

  /** Counting brings no words but those of the sentences. */
  lemma CountedBelow(was: seq<seq<Key>>, counts: seq<seq<nat>>, ls: seq<seq<Key>>, more: seq<seq<nat>>, sents: seq<seq<int>>, vocab: nat)
    requires CountedBy(was, counts, ls, more, sents) && WordsBelow(was, vocab) && vocab > 0
    requires forall s, i | 0 <= s < |sents| && 0 <= i < |sents[s]| :: sents[s][i] < vocab
    ensures WordsBelow(ls, vocab)
  {
    hide Ok, Counters, CountOf, Has, CorpusWindows;
    forall n, i | 1 <= n < |ls| && 0 <= i < |ls[n]| ensures ls[n][i].word < vocab {
      var g := Spell(ls, n, i);
      KeyFacts(ls, n, i);
      SpellOf(ls, n, i, ls[n][i].hist, ls[n][i].word);
      Held(ls, n, i, g);
      LastOfCorpus(sents, |sents|, n, g, vocab);
      assert g[n-1] == ls[n][i].word;
      if Has(was, n, g) {
        HeldBelow(was, n, g, vocab);
      } else if CorpusWindows(sents, |sents|, n, g) == 0 {
        assert Starts(n, g);
      }
    }
  }

  lemma HeldBelow(ls: seq<seq<Key>>, n: nat, g: seq<int>, vocab: nat)
    requires Ok(ls) && 1 <= n < |ls| && Has(ls, n, g) && WordsBelow(ls, vocab)
    ensures |g| == n && g[n-1] < vocab
  {
    hide Ok;
    var i: nat :| Spells(ls, n, i, g);
    KeyFacts(ls, n, i);
  }

  lemma NumbersBelow(words: seq<string>, unk: int, ts: seq<string>)
    requires |words| > 0 && unk < |words|
    ensures forall i | 0 <= i < |ts| :: Numbers(words, unk, ts)[i] < |words|
  {
  }

  lemma NumbersFrom(words: seq<string>, unk: int, ts: seq<string>)
    requires unk >= Invalid
    ensures forall i | 0 <= i < |ts| :: Numbers(words, unk, ts)[i] >= Invalid
  {
  }

  /** The vocabulary after the lines, the numbers of their words in it, and what is counted. */
  ghost predicate Read(m: NgramModel, was: seq<seq<Key>>, counts: seq<seq<nat>>, words: seq<string>, more: seq<seq<nat>>, sents: seq<seq<string>>)
    reads m`vectors, m.vectors, m.vocab
  {
    && m.Valid() && |m.vectors| > 1 && m.vocab.Valid() && Closed(m.Layers())
    && words <= m.vocab.Words() == Collect(words, m.vocab.fixedVocab, sents)
    && (m.vocab.fixedVocab ==> m.vocab.Words() == words)
    && AllSettled(m.vocab.Words(), m.vocab.fixedVocab, sents)
    && CountedBy(was, counts, m.Layers(), more, Numbered(m.vocab.Words(), m.vocab.unkIndex, sents))
    && (Key(0, 0) in m.Layers()[1] || |m.Layers()[1]| < |more[1]|)
  }

  /** Reads and counts the lines. */
  method CountLines(m: NgramModel, counts: seq<seq<nat>>, lines: seq<string>) returns (more: seq<seq<nat>>)
    requires m.Valid() && |m.vectors| > 1 && Closed(m.Layers()) && Counters(m.Layers(), counts) && m.vocab.Valid()
    requires Key(0, 0) in m.Layers()[1] || |m.Layers()[1]| < |counts[1]|
    requires forall l | 0 <= l < |lines| :: Vocabs.Terminator !in lines[l]
    modifies m.vocab, m.vectors
    ensures Read(m, old(m.Layers()), counts, old(m.vocab.Words()), more, Sentences(lines))
    ensures m.vectors == old(m.vectors) && m.vocab.fixedVocab == old(m.vocab.fixedVocab) && m.vocab.unkIndex == old(m.vocab.unkIndex)
  {
    hide NgramVector.Valid, NgramVector.Usable, Ok, Closed, CountedBy, Collect, AddWords, Settled, Sentences, Vocabs.Vocab.Indexing;
    more := counts;
    var hists := seq(|m.vectors|, _ => Invalid);
    m.vocab.ValidShaped();
    ghost var was, words := m.Layers(), m.vocab.Words();
    CountedNone(was, counts);
    assert lines[..0] == [];
    NoSentences(words, m.vocab.fixedVocab, m.vocab.unkIndex);
    for l := 0 to |lines|
      modifies m.vocab, m.vectors
      invariant Read(m, was, counts, words, more, Sentences(lines[..l])) && |hists| == |m.vectors|
      invariant m.vectors == old(m.vectors) && m.vocab.fixedVocab == old(m.vocab.fixedVocab) && m.vocab.unkIndex == old(m.vocab.unkIndex)
    {
      SentencesNext(lines, l);
      if !IsMark(lines[l]) {
        more, hists := CountLine(m, was, counts, words, more, Sentences(lines[..l]), lines[l], hists);
      }
    }
    assert lines[..|lines|] == lines;
  }

  method CountLine(m: NgramModel, ghost was: seq<seq<Key>>, ghost counts: seq<seq<nat>>, ghost words: seq<string>, some: seq<seq<nat>>,
                   ghost sents: seq<seq<string>>, line: string, stale: seq<int>)
    returns (more: seq<seq<nat>>, hists: seq<int>)
    requires Read(m, was, counts, words, some, sents) && |stale| == |m.vectors| && Vocabs.Terminator !in line
    modifies m.vocab, m.vectors
    ensures Read(m, was, counts, words, more, sents + [Tokens(line, 0)]) && |hists| == |m.vectors|
    ensures m.vectors == old(m.vectors) && m.vocab.fixedVocab == old(m.vocab.fixedVocab) && m.vocab.unkIndex == old(m.vocab.unkIndex)
  {
    hide NgramVector.Valid, NgramVector.Usable, Ok, Closed, AddWords, Settled, CountOf, Has, Windows, CorpusWindows, Starts,
         Vocabs.Vocab.Indexing, Extends, Counters, AllSettled;
    m.vocab.ValidShaped();
    ghost var mid, before := m.Layers(), m.vocab.Words();
    CountersHeld(was, counts, mid, some, Numbered(before, m.vocab.unkIndex, sents));
    var tokens := ReadLine(m.vocab, line);
    assert m.Layers() == mid;
    NumbersFrom(m.vocab.Words(), m.vocab.unkIndex, Tokens(line, 0));
    more, hists := CountSentence(m, some, tokens, stale);
    NumberedNext(before, m.vocab.Words(), m.vocab.fixedVocab, m.vocab.unkIndex, sents, Tokens(line, 0));
    CountedNext(was, counts, mid, some, m.Layers(), more, Numbered(before, m.vocab.unkIndex, sents), tokens);
    assert (sents + [Tokens(line, 0)])[..|sents|] == sents;
  }

  lemma CountersHeld(was: seq<seq<Key>>, counts: seq<seq<nat>>, ls: seq<seq<Key>>, more: seq<seq<nat>>, sents: seq<seq<int>>)
    requires CountedBy(was, counts, ls, more, sents)
    ensures Ok(ls) && Counters(ls, more) && |ls| == |was|
  {
  }

  lemma NoSentences(words: seq<string>, fixed: bool, unk: int)
    ensures Sentences([]) == [] && Collect(words, fixed, []) == words && AllSettled(words, fixed, [])
    ensures Numbered(words, unk, []) == []
  {
  }

  lemma SentencesNext(lines: seq<string>, l: nat)
    requires l < |lines|
    ensures Sentences(lines[..l+1]) == if IsMark(lines[l]) then Sentences(lines[..l]) else Sentences(lines[..l]) + [Tokens(lines[l], 0)]
  {
    assert lines[..l+1][..l] == lines[..l];
  }

  // ---------- completing the unigrams ----------

  /** Distinct numbers below n are at most n, and if they are n they are all of them. */
  lemma {:induction false} Pigeons(s: seq<nat>, n: nat)
    requires Below(s, n) && Distinct(s)
    ensures |s| <= n && (|s| == n ==> forall w | 0 <= w < n :: w in s)
  {
    Places(s, |s|);
    Places(Range(n), n);
    var taken, all := PlacesOf(s, |s|), PlacesOf(Range(n), n);
    forall x | x in taken ensures x in all {
      assert x in Range(n);
    }
    SubsetSize(taken, all);
    if |s| == n {
      forall w | 0 <= w < n ensures w in s {
        assert Range(n)[w] == w;
        assert w in all;
        assert w in taken;
      }
    }
  }

  function PlacesOf(s: seq<nat>, k: nat): set<nat>
    requires k <= |s|
  {
    set i | 0 <= i < k :: s[i]
  }

  lemma {:induction false} Places(s: seq<nat>, k: nat)
    requires k <= |s| && Distinct(s)
    ensures |PlacesOf(s, k)| == k
  {
    if k > 0 {
      Places(s, k - 1);
      assert PlacesOf(s, k) == PlacesOf(s, k - 1) + {s[k-1]};
    }
  }

  function UnigramWords(layer: seq<Key>): (s: seq<nat>)
    requires forall i | 0 <= i < |layer| :: 0 <= layer[i].word
    ensures |s| == |layer| && forall i | 0 <= i < |layer| :: s[i] == layer[i].word
  {
    seq(|layer|, i requires 0 <= i < |layer| => layer[i].word)
  }

  /** There are at most as many unigrams as words, and if as many, every word has one. */
  lemma UnigramsFit(ls: seq<seq<Key>>, vocab: nat)
    requires Ok(ls) && |ls| > 1 && WordsBelow(ls, vocab)
    ensures |ls[1]| <= vocab && (|ls[1]| == vocab ==> forall w | 0 <= w < vocab :: Key(0, w) in ls[1])
  {
    ZerothLayer(ls);
    LayerFacts(ls, 1);
    forall i | 0 <= i < |ls[1]| ensures ls[1][i] == Key(0, ls[1][i].word) && 0 <= ls[1][i].word {
      KeyFacts(ls, 1, i);
    }
    var s := UnigramWords(ls[1]);
    forall i, j | 0 <= i < |s| && 0 <= j < |s| && s[i] == s[j] ensures i == j {
      assert ls[1][i] == ls[1][j];
    }
    Pigeons(s, vocab);
    if |s| == vocab {
      forall w | 0 <= w < vocab ensures Key(0, w) in ls[1] {
        assert w in s;
        var i :| 0 <= i < |s| && s[i] == w;
        assert ls[1][i] == Key(0, w);
      }
    }
  }

  /** The unigrams of the first k words are there too, and nothing else has changed. */
  ghost predicate Completed(was: seq<seq<Key>>, ls: seq<seq<Key>>, k: nat) {
    && Ok(was) && Ok(ls) && Extends(was, ls) && |ls| == |was| > 1
    && (forall n | 0 <= n < |was| && n != 1 :: ls[n] == was[n])
    && forall n: nat, g: seq<int> | 1 <= n < |ls| ::
         Has(ls, n, g) <==> Has(was, n, g) || (n == 1 && |g| == 1 && 0 <= g[0] < k)
  }

  lemma CompletedNone(was: seq<seq<Key>>)
    requires Ok(was) && |was| > 1
    ensures Completed(was, was, 0)
  {
    hide Ok, Has;
  }

  lemma CompletedNext(was: seq<seq<Key>>, mid: seq<seq<Key>>, k: nat)
    requires Completed(was, mid, k)
    ensures |mid| > 1 && |mid[0]| == 1 && Ok(mid[1 := Added(mid[1], Key(0, k))])
    ensures Completed(was, mid[1 := Added(mid[1], Key(0, k))], k + 1)
  {
    hide Ok, Has, Added;
    ZerothLayer(mid);
    var ls := mid[1 := Added(mid[1], Key(0, k))];
    AddKeeps(mid, 1, 0, k);
    ExtendsThrough(was, mid, ls);
    forall n: nat, g: seq<int> | 1 <= n < |ls|
      ensures Has(ls, n, g) <==> Has(was, n, g) || (n == 1 && |g| == 1 && 0 <= g[0] < k + 1)
    {
      AddSpells(mid, 1, 0, k, n, g);
      assert Spell(mid, 0, 0) + [k] == [k];
    }
  }

  lemma ExtendsThrough(a: seq<seq<Key>>, b: seq<seq<Key>>, c: seq<seq<Key>>)
    requires Extends(a, b) && Extends(b, c)
    ensures Extends(a, c)
  {
    ExtendsOn(a, b, c);
  }

  /** With zero counts for what was added, no count has changed. */
  lemma CompletedCount(was: seq<seq<Key>>, counts: seq<seq<nat>>, ls: seq<seq<Key>>, more: seq<seq<nat>>, k: nat, n: nat, g: seq<int>)
    requires Completed(was, ls, k) && Counters(was, counts) && Counters(ls, more) && 1 <= n < |ls|
    requires forall m, i | 1 <= m < |ls| && 0 <= i < |more[m]| :: more[m][i] == if i < |counts[m]| then counts[m][i] else 0
    ensures CountOf(ls, more, n, g) == CountOf(was, counts, n, g)
  {
    hide Ok, Extends;
    if Has(was, n, g) {
      var i := IndexOf(was, n, g);
      SpellExtends(was, ls, n, i);
      Held(ls, n, i, g);
      CountAt(was, counts, n, i, g);
      CountAt(ls, more, n, i, g);
    } else if Has(ls, n, g) {
      var i := IndexOf(ls, n, g);
      CountAt(ls, more, n, i, g);
      NewIndex(was, ls, n, i, g);
      assert i < |counts[n]| ==> counts[n][i] == 0;
    }
  }

  lemma NewIndex(was: seq<seq<Key>>, ls: seq<seq<Key>>, n: nat, i: nat, g: seq<int>)
    requires Ok(was) && Ok(ls) && Extends(was, ls) && n < |was| && Spells(ls, n, i, g) && !Has(was, n, g)
    ensures |was[n]| <= i
  {
    hide Ok;
    if i < |was[n]| {
      SpellExtends(was, ls, n, i);
      Held(was, n, i, g);
    }
  }

  function Resized(s: seq<nat>, n: nat): (r: seq<nat>)
    ensures |r| == n && forall i | 0 <= i < n :: r[i] == if i < |s| then s[i] else 0
  {
    seq(n, i requires 0 <= i < n => if i < |s| then s[i] else 0)
  }

  /** Adds the unigrams of words that never occurred. */
  method AddRemaining(m: NgramModel, counts: seq<seq<nat>>) returns (more: seq<seq<nat>>)
    requires m.Valid() && |m.vectors| > 1 && Closed(m.Layers()) && Counters(m.Layers(), counts)
    requires m.vocab.length > 0 && WordsBelow(m.Layers(), m.vocab.length)
    modifies m.vectors
    ensures m.Valid() && m.vectors == old(m.vectors) && Closed(m.Layers()) && Counters(m.Layers(), more)
    ensures WordsKnown(m.Layers(), m.vocab.length)
    ensures Completed(old(m.Layers()), m.Layers(), m.vocab.length)
    ensures forall n: nat, g: seq<int> | 1 <= n < |m.vectors| ::
              CountOf(m.Layers(), more, n, g) == old(CountOf(m.Layers(), counts, n, g))
  {
    hide NgramVector.Valid, NgramVector.Usable, Ok, Closed, Completed, CountOf, WordsBelow, Counters, Has;
    ghost var was := m.Layers();
    UnigramsFit(was, m.vocab.length);
    more := counts;
    if m.vectors[1].length != m.vocab.length {
      AddUnigrams(m);
      CompletedKnown(was, m.Layers(), m.vocab.length);
      CompletedCounters(was, counts, m.Layers(), m.vocab.length);
      more := counts[1 := Resized(counts[1], m.vocab.length)];
      forall n: nat, g: seq<int> | 1 <= n < |m.vectors| ensures CountOf(m.Layers(), more, n, g) == CountOf(was, counts, n, g) {
        CompletedCount(was, counts, m.Layers(), more, m.vocab.length, n, g);
      }
    } else {
      AlreadyComplete(was, m.vocab.length);
    }
  }

  method AddUnigrams(m: NgramModel)
    requires m.Valid() && |m.vectors| > 1 && Closed(m.Layers())
    modifies m.vectors
    ensures m.Valid() && m.vectors == old(m.vectors) && Closed(m.Layers())
    ensures Completed(old(m.Layers()), m.Layers(), m.vocab.length)
  {
    hide NgramVector.Valid, NgramVector.Usable, Ok, Closed, Completed, Has;
    ghost var was := m.Layers();
    CompletedNone(was);
    for i := 0 to m.vocab.length
      modifies m.vectors
      invariant m.Valid() && m.vectors == old(m.vectors) && Closed(m.Layers()) && Completed(was, m.Layers(), i)
    {
      CompletedNext(was, m.Layers(), i);
      ClosedAdds(m.Layers(), 1, 0, i);
      var _, _ := m.Add(1, 0, i);
    }
  }

  lemma AlreadyComplete(was: seq<seq<Key>>, vocab: nat)
    requires Ok(was) && |was| > 1 && WordsBelow(was, vocab) && forall w | 0 <= w < vocab :: Key(0, w) in was[1]
    ensures Completed(was, was, vocab) && WordsKnown(was, vocab)
  {
    hide Ok, Has;
    ZerothLayer(was);
    forall g: seq<int> | |g| == 1 && 0 <= g[0] < vocab ensures Has(was, 1, g) {
      KeySpelled(was, 1, 0, g[0]);
      assert Spell(was, 0, 0) + [g[0]] == g;
    }
  }

  lemma CompletedKnown(was: seq<seq<Key>>, ls: seq<seq<Key>>, vocab: nat)
    requires Completed(was, ls, vocab) && WordsBelow(was, vocab) && vocab > 0
    ensures WordsKnown(ls, vocab) && |ls[1]| <= vocab
  {
    hide Ok, Has, Extends;
    ZerothLayer(ls);
    forall n, i | 1 <= n < |ls| && 0 <= i < |ls[n]| ensures ls[n][i].word < vocab {
      if n == 1 {
        CompletedWord(was, ls, vocab, i);
      }
    }
    forall w | 0 <= w < vocab ensures Key(0, w) in ls[1] {
      assert Has(ls, 1, [w]);
      KeySpelled(ls, 1, 0, w);
      assert Spell(ls, 0, 0) + [w] == [w];
    }
    UnigramsFit(ls, vocab);
  }

  lemma CompletedWord(was: seq<seq<Key>>, ls: seq<seq<Key>>, vocab: nat, i: nat)
    requires Completed(was, ls, vocab) && WordsBelow(was, vocab) && i < |ls[1]|
    ensures ls[1][i].word < vocab
  {
    hide Ok, Has, Extends;
    var g := Spell(ls, 1, i);
    KeyFacts(ls, 1, i);
    SpellOf(ls, 1, i, ls[1][i].hist, ls[1][i].word);
    Held(ls, 1, i, g);
    if Has(was, 1, g) {
      HeldBelow(was, 1, g, vocab);
    }
  }

  lemma CompletedCounters(was: seq<seq<Key>>, counts: seq<seq<nat>>, ls: seq<seq<Key>>, vocab: nat)
    requires Completed(was, ls, vocab) && Counters(was, counts) && |ls[1]| <= vocab && vocab > 0
    ensures |counts| > 1 && Counters(ls, counts[1 := Resized(counts[1], vocab)])
    ensures var more := counts[1 := Resized(counts[1], vocab)];
            forall m, i | 1 <= m < |ls| && 0 <= i < |more[m]| :: more[m][i] == if i < |counts[m]| then counts[m][i] else 0
  {
    hide Ok, Has;
    assert |was[1]| <= |ls[1]|;
  }

  // ---------- the same text under sorted word numbers ----------

  ghost predicate Within(g: seq<int>, vocab: nat) {
    forall k | 0 <= k < |g| :: 0 <= g[k] < vocab
  }

  /** Numbers of words, or Invalid for words that have none. */
  ghost predicate Possible(words: seq<int>, vocab: nat) {
    forall k | 0 <= k < |words| :: Invalid <= words[k] < vocab
  }

  /** Renaming one to one keeps which windows spell what. */
  lemma AtRenamed(vocabMap: seq<nat>, words: seq<int>, i: nat, n: nat, g: seq<int>)
    requires Distinct(vocabMap) && Possible(words, |vocabMap|) && Within(g, |vocabMap|) && i < |words|
    ensures At(Renamed(vocabMap, words), i, n, Renamed(vocabMap, g)) <==> At(words, i, n, g)
  {
    if n <= i + 1 {
      var a, b := Window(words, i, n), Window(Renamed(vocabMap, words), i, n);
      assert b == Renamed(vocabMap, a);
      if a != g && |a| == |g| {
        var k :| 0 <= k < |g| && a[k] != g[k];
        assert a[k] == words[i + 1 - n + k];
        assert Renamed(vocabMap, a)[k] != Renamed(vocabMap, g)[k];
      }
    }
  }

  lemma {:induction false} WindowsRenamed(vocabMap: seq<nat>, words: seq<int>, k: nat, n: nat, g: seq<int>)
    requires Distinct(vocabMap) && Possible(words, |vocabMap|) && Within(g, |vocabMap|) && k <= |words|
    ensures Windows(Renamed(vocabMap, words), k, n, Renamed(vocabMap, g)) == Windows(words, k, n, g)
  {
    hide At, Renamed;
    if k > 1 {
      WindowsRenamed(vocabMap, words, k - 1, n, g);
      AtRenamed(vocabMap, words, k - 1, n, g);
    }
  }

  ghost function RenamedAll(vocabMap: seq<nat>, sents: seq<seq<int>>): (r: seq<seq<int>>)
    ensures |r| == |sents| && forall s | 0 <= s < |sents| :: r[s] == Renamed(vocabMap, sents[s])
  {
    seq(|sents|, s requires 0 <= s < |sents| => Renamed(vocabMap, sents[s]))
  }

  lemma PaddedRenamed(vocabMap: seq<nat>, s: seq<int>)
    requires |vocabMap| > 0 && vocabMap[0] == 0 && Possible(s, |vocabMap|)
    ensures Padded(Renamed(vocabMap, s)) == Renamed(vocabMap, Padded(s)) && Possible(Padded(s), |vocabMap|)
  {
  }

  lemma {:induction false} CorpusRenamed(vocabMap: seq<nat>, sents: seq<seq<int>>, k: nat, n: nat, g: seq<int>)
    requires Distinct(vocabMap) && |vocabMap| > 0 && vocabMap[0] == 0 && Within(g, |vocabMap|) && k <= |sents|
    requires forall s | 0 <= s < |sents| :: Possible(sents[s], |vocabMap|)
    ensures CorpusWindows(RenamedAll(vocabMap, sents), k, n, Renamed(vocabMap, g)) == CorpusWindows(sents, k, n, g)
  {
    hide Windows, Possible, Within, Renamed, Padded;
    if k > 0 {
      CorpusRenamed(vocabMap, sents, k - 1, n, g);
      PaddedRenamed(vocabMap, sents[k-1]);
      WindowsRenamed(vocabMap, Padded(sents[k-1]), |Padded(sents[k-1])|, n, g);
    }
  }

  /** Only sequences of words are spelled. */
  lemma {:induction false} WindowsWithin(words: seq<int>, k: nat, n: nat, g: seq<int>, vocab: nat)
    requires k <= |words| && Possible(words, vocab)
    ensures Windows(words, k, n, g) > 0 ==> Within(g, vocab)
  {
    if k > 1 {
      WindowsWithin(words, k - 1, n, g, vocab);
      if At(words, k - 1, n, g) {
        forall j | 0 <= j < |g| ensures 0 <= g[j] < vocab {
          assert g[j] == words[k - n + j];
        }
      }
    }
  }

  lemma {:induction false} CorpusWithin(sents: seq<seq<int>>, k: nat, n: nat, g: seq<int>, vocab: nat)
    requires k <= |sents| && vocab > 0 && forall s | 0 <= s < |sents| :: Possible(sents[s], vocab)
    ensures CorpusWindows(sents, k, n, g) > 0 ==> Within(g, vocab)
  {
    hide Windows, Within;
    if k > 0 {
      CorpusWithin(sents, k - 1, n, g, vocab);
      WindowsWithin(Padded(sents[k-1]), |Padded(sents[k-1])|, n, g, vocab);
    }
  }

  lemma {:induction false} SpellWithin(ls: seq<seq<Key>>, n: nat, i: nat, vocab: nat)
    requires Ok(ls) && WordsBelow(ls, vocab) && n < |ls| && i < |ls[n]|
    ensures Within(Spell(ls, n, i), vocab)
    decreases n
  {
    hide Ok;
    if n > 0 {
      KeyFacts(ls, n, i);
      SpellWithin(ls, n - 1, ls[n][i].hist, vocab);
    }
  }

  /** A word's number after sorting. */
  lemma NumberRenamed(before: seq<string>, after: seq<string>, vocabMap: seq<nat>, unk: int, t: string)
    requires Distinct(after) && Distinct(before) && Below(vocabMap, |after|) && Through(after, vocabMap) == before
    requires |after| == |before| > 0 && before[0] == "</s>" == after[0] && "<s>" !in before && "<s>" !in after
    requires unk == Invalid || (unk == 1 < |before| && before[1] == "<unk>" == after[1])
    requires forall y :: 0 <= y < |after| ==> y in vocabMap
    ensures |vocabMap| == |before| && vocabMap[0] == 0
    ensures Renamed(vocabMap, [Number(before, unk, t)])[0] == Number(after, unk, t)
    ensures Invalid <= Number(before, unk, t) < |before|
  {
    assert |Through(after, vocabMap)| == |vocabMap|;
    assert forall i | 0 <= i < |before| :: after[vocabMap[i]] == before[i];
    assert forall j | 0 <= j < |after| :: after[j] in before by {
      forall j | 0 <= j < |after| ensures after[j] in before {
        assert j in vocabMap;
        var i :| 0 <= i < |vocabMap| && vocabMap[i] == j;
        assert before[i] == after[j];
      }
    }
    if t in before {
      var i := IndexIn(before, t);
      assert after[vocabMap[i]] == t;
      assert t != "<s>";
      NumberAt(before, unk, t, i);
      NumberAt(after, unk, t, vocabMap[i]);
    }
  }

  /** The sentences' words after sorting. */
  lemma NumberedRenamed(before: seq<string>, after: seq<string>, vocabMap: seq<nat>, unk: int, sents: seq<seq<string>>)
    requires Distinct(after) && Distinct(before) && Below(vocabMap, |after|) && Through(after, vocabMap) == before
    requires |after| == |before| > 0 && before[0] == "</s>" == after[0] && "<s>" !in before && "<s>" !in after
    requires unk == Invalid || (unk == 1 < |before| && before[1] == "<unk>" == after[1])
    requires forall y :: 0 <= y < |after| ==> y in vocabMap
    ensures |vocabMap| == |before| && vocabMap[0] == 0
    ensures Numbered(after, unk, sents) == RenamedAll(vocabMap, Numbered(before, unk, sents))
    ensures forall s | 0 <= s < |sents| :: Possible(Numbered(before, unk, sents)[s], |before|)
  {
    hide Number, Distinct;
    NumberRenamed(before, after, vocabMap, unk, "");
    forall s, i | 0 <= s < |sents| && 0 <= i < |sents[s]|
      ensures Renamed(vocabMap, Numbers(before, unk, sents[s]))[i] == Number(after, unk, sents[s][i])
      ensures Invalid <= Number(before, unk, sents[s][i]) < |before|
    {
      NumberRenamed(before, after, vocabMap, unk, sents[s][i]);
    }
    forall s | 0 <= s < |sents| ensures Numbers(after, unk, sents[s]) == Renamed(vocabMap, Numbers(before, unk, sents[s])) {
    }
  }

  lemma RenamedInjective(vocabMap: seq<nat>, f: seq<int>, g: seq<int>)
    requires Distinct(vocabMap) && Within(f, |vocabMap|) && Within(g, |vocabMap|) && Renamed(vocabMap, f) == Renamed(vocabMap, g)
    ensures f == g
  {
    assert |f| == |Renamed(vocabMap, f)| == |g|;
    forall k | 0 <= k < |f| ensures f[k] == g[k] {
      assert Renamed(vocabMap, f)[k] == Renamed(vocabMap, g)[k];
    }
  }

  /** Every sequence of words has a name from before. */
  lemma Unrenamed(vocabMap: seq<nat>, g: seq<int>) returns (f: seq<int>)
    requires Within(g, |vocabMap|) && forall y :: 0 <= y < |vocabMap| ==> y in vocabMap
    ensures Within(f, |vocabMap|) && Renamed(vocabMap, f) == g
  {
    if g == [] {
      f := [];
    } else {
      var front := Unrenamed(vocabMap, g[..|g|-1]);
      assert g[|g|-1] in vocabMap;
      var i :| 0 <= i < |vocabMap| && vocabMap[i] == g[|g|-1];
      f := front + [i];
      assert Renamed(vocabMap, f) == Renamed(vocabMap, front) + [g[|g|-1]];
    }
  }

  /** Sorting keeps what is stored and counted, under the new numbers. */
  lemma CountRenamed(was: seq<seq<Key>>, now: seq<seq<Key>>, vocabMap: seq<nat>, ngramMap: seq<seq<nat>>,
                     counts: seq<seq<nat>>, sorted: seq<seq<nat>>, n: nat, g: seq<int>)
    requires Ok(was) && Ok(now) && Sorted(was, now, vocabMap, ngramMap, |was|) && Distinct(vocabMap)
    requires Counters(was, counts) && Counters(now, sorted) && |ngramMap| == |was| == |now| == |counts| == |sorted|
    requires forall n, i | 1 <= n < |was| && 0 <= i < |was[n]| :: Moved(was, ngramMap, counts, sorted, n, i)
    requires WordsBelow(was, |vocabMap|) && Within(g, |vocabMap|) && 1 <= n < |was|
    ensures CountOf(now, sorted, n, Renamed(vocabMap, g)) == CountOf(was, counts, n, g)
    ensures Has(now, n, Renamed(vocabMap, g)) <==> Has(was, n, g)
  {
    hide Ok, Sorted, Counters, CountOf, Within, WordsBelow, Renamed, Distinct;
    SortedMaps(was, now, vocabMap, ngramMap);
    if Has(was, n, g) {
      var i: nat :| Spells(was, n, i, g);
      SpellCarried(was, now, vocabMap, ngramMap, |was|, n, i);
      assert Moved(was, ngramMap, counts, sorted, n, i);
      CountsSorted(was, now, vocabMap, ngramMap, counts, sorted, n, i);
      Held(now, n, ngramMap[n][i], Renamed(vocabMap, g));
    }
    if Has(now, n, Renamed(vocabMap, g)) {
      var j: nat :| Spells(now, n, j, Renamed(vocabMap, g));
      var i := SortedFrom(was, now, vocabMap, ngramMap, n, j);
      SpellCarried(was, now, vocabMap, ngramMap, |was|, n, i);
      SpellWithin(was, n, i, |vocabMap|);
      RenamedInjective(vocabMap, Spell(was, n, i), g);
      Held(was, n, i, g);
    } else {
      Uncounted(now, sorted, n, Renamed(vocabMap, g));
      Uncounted(was, counts, n, g);
    }
  }

  lemma Uncounted(ls: seq<seq<Key>>, counts: seq<seq<nat>>, n: nat, g: seq<int>)
    requires Ok(ls) && Counters(ls, counts) && 1 <= n < |ls|
    ensures !Has(ls, n, g) ==> CountOf(ls, counts, n, g) == 0
  {
    hide Ok, Counters, Has;
  }

  // ---------- the whole ----------

  /** Room for one more n-gram of every order, and zeros beyond what is kept. */
  method StartCounts(ls: seq<seq<Key>>, countVectors: seq<seq<nat>>, reset: bool) returns (counts: seq<seq<nat>>)
    requires Ok(ls)
    requires reset || Counters(ls, countVectors)
    ensures Counters(ls, counts) && forall n | 1 <= n < |ls| :: |ls[n]| < |counts[n]|
    ensures forall n: nat, g: seq<int> | 1 <= n < |ls| ::
              CountOf(ls, counts, n, g) == if reset then 0 else CountOf(ls, countVectors, n, g)
    ensures reset || Shrinks(ls, countVectors) ==> Shrinks(ls, counts)
  {
    hide Ok, Has;
    ZerothLayer(ls);
    counts := [[0]];
    for n := 1 to |ls|
      invariant |counts| == n
      invariant forall k | 1 <= k < n :: |ls[k]| < |counts[k]|
      invariant forall k, i | 1 <= k < n && 0 <= i < |counts[k]| ::
                  counts[k][i] == if reset || i >= |countVectors[k]| then 0 else countVectors[k][i]
    {
      var next := NextPowerOfTwo(|ls[n]|);
      var capacity := if next > 65536 then next else 65536;
      counts := counts + [Resized(if reset then [] else countVectors[n], capacity)];
    }
    forall n: nat, g: seq<int> | 1 <= n < |ls|
      ensures CountOf(ls, counts, n, g) == if reset then 0 else CountOf(ls, countVectors, n, g)
    {
      if Has(ls, n, g) {
        assert IndexOf(ls, n, g) < |ls[n]|;
      }
    }
    if reset || Shrinks(ls, countVectors) {
      forall n, g: seq<int> | 2 <= n < |ls| && |g| == n ensures ShrinksAt(ls, counts, n, g) {
        assert reset || ShrinksAt(ls, countVectors, n, g);
      }
    }
  }

  /** Every order's counts go where its n-grams went; an order that stayed as it is keeps its counts in place. */
  method SortCounts(ghost was: seq<seq<Key>>, counts: seq<seq<nat>>, ngramMap: seq<seq<nat>>) returns (sorted: seq<seq<nat>>)
    requires |was| == |counts| == |ngramMap| > 0
    requires forall n | 0 <= n < |was| :: |was[n]| == |ngramMap[n]| && Below(ngramMap[n], |was[n]|) && Distinct(ngramMap[n])
    requires forall n | 1 <= n < |was| :: |was[n]| <= |counts[n]|
    ensures |sorted| == |was| && forall n | 1 <= n < |was| :: |sorted[n]| == |was[n]|
    ensures forall n, i | 1 <= n < |was| && 0 <= i < |was[n]| :: Moved(was, ngramMap, counts, sorted, n, i)
  {
    sorted := [[0]];
    for n := 1 to |counts|
      invariant |sorted| == n && forall k | 1 <= k < n :: |sorted[k]| == |was[k]|
      invariant forall k, i | 1 <= k < n && 0 <= i < |was[k]| :: Moved(was, ngramMap, counts, sorted, k, i)
    {
      var next := ApplySort(ngramMap[n], counts[n], |ngramMap[n]|, 0);
      ghost var before := sorted;
      sorted := sorted + [next];
      forall k, i | 1 <= k < n && 0 <= i < |was[k]| ensures Moved(was, ngramMap, counts, sorted, k, i) {
        assert Moved(was, ngramMap, counts, before, k, i);
      }
    }
  }

  /** Some n-gram of order n is there or will be. */
  ghost predicate HasSome(ls: seq<seq<Key>>, sents: seq<seq<int>>, n: nat)
    requires Ok(ls) && n < |ls|
  {
    exists g: seq<int> :: HasOne(ls, sents, n, g)
  }

  ghost predicate HasOne(ls: seq<seq<Key>>, sents: seq<seq<int>>, n: nat, g: seq<int>)
    requires Ok(ls) && n < |ls|
  {
    Has(ls, n, g) || CorpusWindows(sents, |sents|, n, g) > 0
  }

  /** What is stored and counted, for n-grams g of words numbered as before sorting. */
  lemma LoadedCount(was: seq<seq<Key>>, start: seq<seq<nat>>, grown: seq<seq<Key>>, more: seq<seq<nat>>, whole: seq<seq<Key>>, full: seq<seq<nat>>,
                    now: seq<seq<Key>>, counts: seq<seq<nat>>, vocabMap: seq<nat>, ngramMap: seq<seq<nat>>, sents: seq<seq<int>>, n: nat, g: seq<int>)
    requires CountedBy(was, start, grown, more, sents) && Completed(grown, whole, |vocabMap|) && Counters(whole, full)
    requires 1 <= n < |was| == |whole| && CountOf(whole, full, n, g) == CountOf(grown, more, n, g)
    requires Ok(now) && Sorted(whole, now, vocabMap, ngramMap, |whole|) && Distinct(vocabMap) && |vocabMap| > 0 && vocabMap[0] == 0
    requires Counters(now, counts) && |ngramMap| == |whole| == |now| == |full| == |counts|
    requires forall n, i | 1 <= n < |whole| && 0 <= i < |whole[n]| :: Moved(whole, ngramMap, full, counts, n, i)
    requires WordsBelow(whole, |vocabMap|) && Within(g, |vocabMap|)
    requires forall s | 0 <= s < |sents| :: Possible(sents[s], |vocabMap|)
    ensures CountOf(now, counts, n, Renamed(vocabMap, g))
         == CountOf(was, start, n, g) + CorpusWindows(RenamedAll(vocabMap, sents), |sents|, n, Renamed(vocabMap, g))
    ensures Has(now, n, Renamed(vocabMap, g)) <==>
              || Has(was, n, g) || (n == 1 && |g| == 1)
              || CorpusWindows(RenamedAll(vocabMap, sents), |sents|, n, Renamed(vocabMap, g)) > 0
  {
    hide Ok, Sorted, Counters, CountOf, Has, WordsBelow, Renamed, Distinct, CorpusWindows, Possible, Extends;
    CountRenamed(whole, now, vocabMap, ngramMap, full, counts, n, g);
    CorpusRenamed(vocabMap, sents, |sents|, n, g);
    assert Has(whole, n, g) <==> Has(grown, n, g) || (n == 1 && |g| == 1);
    assert Has(grown, n, g) <==> Has(was, n, g) || (sents != [] && Starts(n, g)) || CorpusWindows(sents, |sents|, n, g) > 0;
  }

  /** Nothing is stored or counted but n-grams of words. */
  lemma OnlyWords(ls: seq<seq<Key>>, counts: seq<seq<nat>>, sents: seq<seq<int>>, vocab: nat, n: nat, g: seq<int>)
    requires Ok(ls) && Counters(ls, counts) && WordsBelow(ls, vocab) && vocab > 0 && 1 <= n < |ls|
    requires forall s | 0 <= s < |sents| :: Possible(sents[s], vocab)
    ensures !Within(g, vocab) ==> CountOf(ls, counts, n, g) == 0 == CorpusWindows(sents, |sents|, n, g)
  {
    hide Ok, Counters, CountOf, WordsBelow, Within, Possible, CorpusWindows;
    CorpusWithin(sents, |sents|, n, g, vocab);
    Uncounted(ls, counts, n, g);
    if Has(ls, n, g) {
      var i: nat :| Spells(ls, n, i, g);
      SpellWithin(ls, n, i, vocab);
    }
  }

  /** Reads and counts the lines, and adds the unigrams of words that never occurred. */
  method FillModel(m: NgramModel, countVectors: seq<seq<nat>>, lines: seq<string>, reset: bool)
    returns (full: seq<seq<nat>>, ghost start: seq<seq<nat>>, ghost grown: seq<seq<Key>>, ghost more: seq<seq<nat>>)
    requires m.Valid() && |m.vectors| > 1 && Closed(m.Layers()) && m.vocab.Valid() && WordsBelow(m.Layers(), m.vocab.length)
    requires reset || Counters(m.Layers(), countVectors)
    requires forall l | 0 <= l < |lines| :: Vocabs.Terminator !in lines[l]
    modifies m.vocab, m.vectors
    ensures m.Valid() && m.vectors == old(m.vectors) && Closed(m.Layers()) && Counters(m.Layers(), full)
    ensures m.vocab.Valid() && m.vocab.fixedVocab == old(m.vocab.fixedVocab) && m.vocab.unkIndex == old(m.vocab.unkIndex)
    ensures m.vocab.Words() == old(Collect(m.vocab.Words(), m.vocab.fixedVocab, Sentences(lines)))
    ensures CountedBy(old(m.Layers()), start, grown, more, Numbered(m.vocab.Words(), m.vocab.unkIndex, Sentences(lines)))
    ensures Completed(grown, m.Layers(), m.vocab.length) && WordsKnown(m.Layers(), m.vocab.length) && m.vocab.length > 0
    ensures forall n: nat, g: seq<int> | 1 <= n < |m.vectors| :: CountOf(m.Layers(), full, n, g) == CountOf(grown, more, n, g)
    ensures forall n: nat, g: seq<int> | 1 <= n < |m.vectors| ::
              CountOf(old(m.Layers()), start, n, g) == if reset then 0 else CountOf(old(m.Layers()), countVectors, n, g)
    ensures reset || old(Shrinks(m.Layers(), countVectors)) ==> Shrinks(m.Layers(), full)
  {
    hide NgramVector.Valid, NgramVector.Usable, Ok, Closed, Completed, CountOf, WordsBelow, Has, Sentences, Collect, Numbered,
         Shrinks, Vocabs.Vocab.Indexing, AllSettled, WordsKnown;
    m.vocab.ValidShaped();
    ghost var was, before := m.Layers(), m.vocab.length;
    full := StartCounts(m.Layers(), countVectors, reset);
    start := full;
    full := CountLines(m, full, lines);
    more := full;
    grown := m.Layers();
    m.vocab.ValidShaped();
    ghost var nums := Numbered(m.vocab.Words(), m.vocab.unkIndex, Sentences(lines));
    MoreBelow(was, before, m.vocab.length);
    NumberedBelow(m.vocab.Words(), m.vocab.unkIndex, Sentences(lines));
    CountedBelow(was, start, grown, more, nums, m.vocab.length);
    full := AddRemaining(m, full);
    if reset || Shrinks(was, countVectors) {
      CountedShrinks(was, start, grown, more, nums);
      CompletedShrinks(grown, more, m.Layers(), full);
    }
  }

  lemma MoreBelow(ls: seq<seq<Key>>, a: nat, b: nat)
    requires WordsBelow(ls, a) && a <= b
    ensures WordsBelow(ls, b)
  {
  }

  lemma NumberedBelow(words: seq<string>, unk: int, sents: seq<seq<string>>)
    requires |words| > 0 && unk < |words|
    ensures forall s, i | 0 <= s < |sents| && 0 <= i < |Numbered(words, unk, sents)[s]| :: Numbered(words, unk, sents)[s][i] < |words|
  {
    forall s | 0 <= s < |sents| ensures forall i | 0 <= i < |sents[s]| :: Numbers(words, unk, sents[s])[i] < |words| {
      NumbersBelow(words, unk, sents[s]);
    }
  }

  lemma CompletedShrinks(was: seq<seq<Key>>, counts: seq<seq<nat>>, ls: seq<seq<Key>>, more: seq<seq<nat>>)
    requires Ok(was) && Counters(was, counts) && Ok(ls) && Counters(ls, more) && |was| == |ls| && Shrinks(was, counts)
    requires forall n: nat, g: seq<int> | 1 <= n < |ls| :: CountOf(ls, more, n, g) == CountOf(was, counts, n, g)
    ensures Shrinks(ls, more)
  {
    hide Ok, Counters, CountOf;
    forall n, g: seq<int> | 2 <= n < |ls| && |g| == n ensures ShrinksAt(ls, more, n, g) {
      assert ShrinksAt(was, counts, n, g);
    }
  }

  /** Sorts words, n-grams and counts, and links n-grams to their backoffs. */
  method SortLoaded(m: NgramModel, full: seq<seq<nat>>)
    returns (counts: seq<seq<nat>>, vocabMap: seq<nat>, linked: bool, ghost ngramMap: seq<seq<nat>>)
    requires m.Valid() && |m.vectors| > 1 && Closed(m.Layers()) && m.vocab.Valid() && m.vocab.FixedWords() < m.vocab.length
    requires WordsKnown(m.Layers(), m.vocab.length) && Counters(m.Layers(), full)
    requires forall n | 1 <= n < |m.vectors| :: |m.Layers()[n]| > 0
    modifies m`backoffVectors, m.vocab, m.vectors
    ensures m.Sound() && m.vectors == old(m.vectors) && m.vocab.Valid() && Closed(m.Layers()) && WordsKnown(m.Layers(), m.vocab.length)
    ensures m.vocab.unkIndex == old(m.vocab.unkIndex) && Permutes(vocabMap, m.vocab.length)
    ensures Through(m.vocab.Words(), vocabMap) == old(m.vocab.Words())
    ensures Sorted(old(m.Layers()), m.Layers(), vocabMap, ngramMap, |m.vectors|)
    ensures Counters(m.Layers(), counts) && |counts| == |full| && forall n | 1 <= n < |m.vectors| :: |counts[n]| == |m.Layers()[n]|
    ensures |ngramMap| == |full| == |m.vectors|
    ensures forall n, i | 1 <= n < |m.vectors| && 0 <= i < |old(m.Layers())[n]| :: Moved(old(m.Layers()), ngramMap, full, counts, n, i)
    ensures old(Shrinks(m.Layers(), full)) ==> Shrinks(m.Layers(), counts)
    ensures linked <==> Linked(m.Layers(), m.backoffVectors)
    ensures linked <==> m.AllSuffixesFound()
  {
    hide NgramVector.Valid, NgramVector.Usable, Ok, Closed, CountOf, Has, Vocabs.Vocab.Indexing, Sorted, Linked, Moved, Shrinks,
         NgramModel.AllSuffixesFound, NgramModel.FindsSafe, SortedWell, Permutes, WordsKnown, Counters, Extends;
    ghost var was, words := m.Layers(), m.vocab.length;
    MergedModels.KnownWords(was, words);
    var maps;
    m.vocab.ValidShaped();
    ghost var texts := m.vocab.Words();
    vocabMap, maps, linked := m.SortModel();
    m.vocab.ValidShaped();
    MergedModels.PermutesBelow(vocabMap, m.vocab.length);
    assert |texts| == |Through(m.vocab.Words(), vocabMap)|;
    ngramMap := maps;
    ghost var now := m.Layers();
    hide Vocabs.Vocab.Valid, Vocabs.Vocab.Shaped, Vocabs.Vocab.Words, Through;
    SortedPermutes(was, now, vocabMap, maps);
    CountersRoom(was, full);
    counts := SortCounts(was, full, maps);
    AfterSorting(was, now, vocabMap, maps, full, counts, words);
  }

  lemma CountersRoom(ls: seq<seq<Key>>, counts: seq<seq<nat>>)
    requires Counters(ls, counts)
    ensures |counts| == |ls| && forall n | 1 <= n < |ls| :: |ls[n]| <= |counts[n]|
  {
  }

  /** What sorting keeps. */
  lemma AfterSorting(was: seq<seq<Key>>, now: seq<seq<Key>>, vocabMap: seq<nat>, ngramMap: seq<seq<nat>>, full: seq<seq<nat>>,
                     counts: seq<seq<nat>>, vocab: nat)
    requires Ok(was) && Ok(now) && Sorted(was, now, vocabMap, ngramMap, |was|) && |now| == |was| == |ngramMap| == |counts| == |full|
    requires Closed(was) && WordsKnown(was, vocab) && Permutes(vocabMap, vocab) && Counters(was, full)
    requires forall n | 1 <= n < |was| :: |counts[n]| == |was[n]| > 0
    requires forall n, i | 1 <= n < |was| && 0 <= i < |was[n]| :: Moved(was, ngramMap, full, counts, n, i)
    ensures Counters(now, counts) && Closed(now) && WordsKnown(now, vocab) && forall n | 1 <= n < |was| :: |counts[n]| == |now[n]|
    ensures Shrinks(was, full) ==> Shrinks(now, counts)
  {
    hide Ok, Closed, CountOf, Sorted, Moved, Shrinks, Permutes, WordsKnown;
    SortedMaps(was, now, vocabMap, ngramMap);
    SortedCounters(was, now, vocabMap, ngramMap, counts);
    MergedModels.SortedKnown(was, now, vocabMap, ngramMap, vocab);
    MergedModels.SortedClosed(was, now, vocabMap, ngramMap);
    if Shrinks(was, full) {
      SortedShrinks(was, now, vocabMap, ngramMap, full, counts);
    }
  }

  lemma SortedPermutes(was: seq<seq<Key>>, now: seq<seq<Key>>, vocabMap: seq<nat>, ngramMap: seq<seq<nat>>)
    requires Sorted(was, now, vocabMap, ngramMap, |was|)
    ensures |ngramMap| == |was| > 0
    ensures forall n | 0 <= n < |was| :: |was[n]| == |ngramMap[n]| && Below(ngramMap[n], |was[n]|) && Distinct(ngramMap[n])
  {
    forall n | 0 <= n < |was| ensures |was[n]| == |ngramMap[n]| && Below(ngramMap[n], |was[n]|) && Distinct(ngramMap[n]) {
      assert Permutes(ngramMap[n], |was[n]|);
    }
  }

  lemma SortedCounters(was: seq<seq<Key>>, now: seq<seq<Key>>, vocabMap: seq<nat>, ngramMap: seq<seq<nat>>, counts: seq<seq<nat>>)
    requires Sorted(was, now, vocabMap, ngramMap, |was|) && |counts| == |was|
    requires forall n | 1 <= n < |was| :: |counts[n]| == |was[n]| > 0
    ensures Counters(now, counts) && |now| == |was| && forall n | 1 <= n < |was| :: |counts[n]| == |now[n]|
  {
    NgramModels.SortedSizes(was, now, vocabMap, ngramMap, |was|);
  }

  /** Loads a corpus into a model: reads and counts its lines, adds the unigrams of words that never occurred, sorts
      words, n-grams and counts, and links n-grams to their backoffs. In terms of the sorted vocabulary, every n-gram
      is counted once for each time it occurs in the corpus, on top of what it was counted before. */
  method LoadCorpus(m: NgramModel, countVectors: seq<seq<nat>>, lines: seq<string>, reset: bool)
    returns (counts: seq<seq<nat>>, vocabMap: seq<nat>, linked: bool)
    requires m.Valid() && |m.vectors| > 1 && Closed(m.Layers()) && m.vocab.Valid() && WordsBelow(m.Layers(), m.vocab.length)
    requires reset || Counters(m.Layers(), countVectors)
    requires forall l | 0 <= l < |lines| :: Vocabs.Terminator !in lines[l]
    requires |Collect(m.vocab.Words(), m.vocab.fixedVocab, Sentences(lines))| > m.vocab.FixedWords()
    requires var words := Collect(m.vocab.Words(), m.vocab.fixedVocab, Sentences(lines));
             forall n | 2 <= n < |m.vectors| :: HasSome(m.Layers(), Numbered(words, m.vocab.unkIndex, Sentences(lines)), n)
    modifies m`backoffVectors, m.vocab, m.vectors
    ensures m.Sound() && m.vectors == old(m.vectors) && m.vocab.Valid() && Closed(m.Layers()) && WordsKnown(m.Layers(), m.vocab.length)
    ensures m.vocab.unkIndex == old(m.vocab.unkIndex)
    ensures Permutes(vocabMap, m.vocab.length)
    ensures Through(m.vocab.Words(), vocabMap) == old(Collect(m.vocab.Words(), m.vocab.fixedVocab, Sentences(lines)))
    ensures Counters(m.Layers(), counts) && forall n | 1 <= n < |m.vectors| :: |counts[n]| == |m.Layers()[n]|
    ensures var sents := Numbered(m.vocab.Words(), m.vocab.unkIndex, Sentences(lines));
            forall n: nat, g: seq<int> | 1 <= n < |m.vectors| && Within(g, |vocabMap|) ::
              CountOf(m.Layers(), counts, n, Renamed(vocabMap, g))
                == (if reset then 0 else old(CountOf(m.Layers(), countVectors, n, g)))
                   + CorpusOccurrences(sents, |sents|, n, Renamed(vocabMap, g))
    ensures var sents := Numbered(m.vocab.Words(), m.vocab.unkIndex, Sentences(lines));
            forall n: nat, g: seq<int> | 1 <= n < |m.vectors| && Within(g, |vocabMap|) ::
              Has(m.Layers(), n, Renamed(vocabMap, g)) <==>
                || old(Has(m.Layers(), n, g)) || (n == 1 && |g| == 1)
                || CorpusOccurrences(sents, |sents|, n, Renamed(vocabMap, g)) > 0
    ensures var sents := Numbered(m.vocab.Words(), m.vocab.unkIndex, Sentences(lines));
            reset ==> forall n: nat, g: seq<int> | 1 <= n < |m.vectors| ::
              CountOf(m.Layers(), counts, n, g) == CorpusOccurrences(sents, |sents|, n, g)
    ensures reset || old(Shrinks(m.Layers(), countVectors)) ==> Shrinks(m.Layers(), counts)
    ensures linked <==> Linked(m.Layers(), m.backoffVectors)
    ensures linked <==> m.AllSuffixesFound()
  {
    hide NgramVector.Valid, NgramVector.Usable, Ok, Closed, CountOf, Has, Vocabs.Vocab.Indexing, Sorted, Linked, Moved, Shrinks, Extends,
         NgramModel.AllSuffixesFound, Permutes, WordsKnown, WordsBelow, CountedBy, Completed, Collect, Numbered, Sentences,
         CorpusWindows, CorpusOccurrences, HasSome, Within, Counters;
    m.vocab.ValidShaped();
    ghost var was, texts := m.Layers(), Sentences(lines);
    var full;
    ghost var start, grown, more, maps;
    full, start, grown, more := FillModel(m, countVectors, lines, reset);
    ghost var whole := m.Layers();
    m.vocab.ValidShaped();
    ghost var before := m.vocab.Words();
    NoneEmpty(was, start, grown, more, Numbered(before, m.vocab.unkIndex, texts), whole, m.vocab.length);
    m.vocab.WordsDistinct();
    VocabFacts(m.vocab);
    counts, vocabMap, linked, maps := SortLoaded(m, full);
    m.vocab.ValidShaped();
    m.vocab.WordsDistinct();
    VocabFacts(m.vocab);
    MergedModels.PermutesBelow(vocabMap, m.vocab.length);
    assert |Through(m.vocab.Words(), vocabMap)| == |before|;
    LoadedCounts(was, start, grown, more, whole, full, m.Layers(), counts, vocabMap, maps, before, m.vocab.Words(), m.vocab.unkIndex, texts);
    ghost var sents := Numbered(m.vocab.Words(), m.vocab.unkIndex, texts);
    forall n: nat, g: seq<int> | 1 <= n < |m.vectors| && Within(g, |vocabMap|)
      ensures CountOf(m.Layers(), counts, n, Renamed(vocabMap, g))
           == (if reset then 0 else CountOf(was, countVectors, n, g)) + CorpusOccurrences(sents, |sents|, n, Renamed(vocabMap, g))
      ensures Has(m.Layers(), n, Renamed(vocabMap, g)) <==>
                Has(was, n, g) || (n == 1 && |g| == 1) || CorpusOccurrences(sents, |sents|, n, Renamed(vocabMap, g)) > 0
    {
      assert CountsAre(was, start, m.Layers(), counts, vocabMap, sents, n, g);
      CorpusWindowsAre(sents, |sents|, n, Renamed(vocabMap, g));
    }
    if reset {
      AllLoadedCounts(was, m.Layers(), start, counts, vocabMap, m.vocab.Words(), m.vocab.unkIndex, texts);
      forall n: nat, g: seq<int> | 1 <= n < |m.vectors|
        ensures CountOf(m.Layers(), counts, n, g) == CorpusOccurrences(sents, |sents|, n, g)
      {
        CorpusWindowsAre(sents, |sents|, n, g);
      }
    }
  }

  lemma VocabFacts(v: Vocabs.Vocab)
    requires v.Valid()
    ensures v.Shaped() && v.length > 0 && v.Words()[0] == "</s>" && "<s>" !in v.Words()
    ensures v.unkIndex == Invalid || (v.unkIndex == 1 < v.length && v.Words()[1] == "<unk>")
  {
  }

  /** No order is empty when it is sorted. */
  lemma NoneEmpty(was: seq<seq<Key>>, start: seq<seq<nat>>, grown: seq<seq<Key>>, more: seq<seq<nat>>, sents: seq<seq<int>>,
                  whole: seq<seq<Key>>, vocab: nat)
    requires CountedBy(was, start, grown, more, sents) && Completed(grown, whole, vocab) && WordsKnown(whole, vocab) && vocab > 0
    requires forall n | 2 <= n < |was| :: HasSome(was, sents, n)
    ensures forall n | 1 <= n < |whole| :: |whole[n]| > 0
  {
    hide Ok, Counters, CountOf, Extends, CorpusWindows, Starts;
    forall n | 1 <= n < |whole| ensures |whole[n]| > 0 {
      if n == 1 {
        assert Key(0, 0) in whole[1];
      } else {
        assert HasSome(was, sents, n);
        var g: seq<int> :| HasOne(was, sents, n, g);
        assert Has(grown, n, g);
        var i: nat :| Spells(grown, n, i, g);
      }
    }
  }

  ghost predicate CountsAre(was: seq<seq<Key>>, start: seq<seq<nat>>, now: seq<seq<Key>>, counts: seq<seq<nat>>, vocabMap: seq<nat>,
                            sents: seq<seq<int>>, n: nat, g: seq<int>)
    requires Ok(was) && Counters(was, start) && Ok(now) && Counters(now, counts) && 1 <= n < |was| == |now|
  {
    && CountOf(now, counts, n, Renamed(vocabMap, g))
         == CountOf(was, start, n, g) + CorpusWindows(sents, |sents|, n, Renamed(vocabMap, g))
    && (Has(now, n, Renamed(vocabMap, g)) <==>
          || Has(was, n, g) || (n == 1 && |g| == 1) || CorpusWindows(sents, |sents|, n, Renamed(vocabMap, g)) > 0)
  }

  lemma LoadedCounts(was: seq<seq<Key>>, start: seq<seq<nat>>, grown: seq<seq<Key>>, more: seq<seq<nat>>, whole: seq<seq<Key>>, full: seq<seq<nat>>,
                     now: seq<seq<Key>>, counts: seq<seq<nat>>, vocabMap: seq<nat>, ngramMap: seq<seq<nat>>,
                     before: seq<string>, after: seq<string>, unk: int, texts: seq<seq<string>>)
    requires CountedBy(was, start, grown, more, Numbered(before, unk, texts)) && Completed(grown, whole, |before|) && Counters(whole, full)
    requires |was| == |whole| && forall n: nat, g: seq<int> | 1 <= n < |whole| :: CountOf(whole, full, n, g) == CountOf(grown, more, n, g)
    requires Ok(now) && Sorted(whole, now, vocabMap, ngramMap, |whole|)
    requires Counters(now, counts) && |ngramMap| == |whole| == |now| == |full| == |counts|
    requires forall n, i | 1 <= n < |whole| && 0 <= i < |whole[n]| :: Moved(whole, ngramMap, full, counts, n, i)
    requires WordsKnown(whole, |before|)
    requires Distinct(after) && Distinct(before) && Permutes(vocabMap, |after|) && Below(vocabMap, |after|) && Through(after, vocabMap) == before
    requires |after| == |before| > 0 && before[0] == "</s>" == after[0] && "<s>" !in before && "<s>" !in after
    requires unk == Invalid || (unk == 1 < |before| && before[1] == "<unk>" == after[1])
    ensures Ok(was) && Counters(was, start)
    ensures forall n: nat, g: seq<int> | 1 <= n < |was| && Within(g, |vocabMap|) ::
              CountsAre(was, start, now, counts, vocabMap, Numbered(after, unk, texts), n, g)
  {
    hide Ok, Sorted, Counters, CountOf, Has, WordsBelow, Distinct, CorpusWindows, Completed, Moved, WordsKnown, Numbered, Possible, Within;
    NumberedRenamed(before, after, vocabMap, unk, texts);
    KnownBelow(whole, |before|);
    forall n: nat, g: seq<int> | 1 <= n < |was| && Within(g, |vocabMap|)
      ensures CountsAre(was, start, now, counts, vocabMap, Numbered(after, unk, texts), n, g)
    {
      LoadedCount(was, start, grown, more, whole, full, now, counts, vocabMap, ngramMap, Numbered(before, unk, texts), n, g);
    }
  }

  /** If nothing was counted before, the counts are the numbers of windows. */
  lemma AllLoadedCounts(was: seq<seq<Key>>, now: seq<seq<Key>>, start: seq<seq<nat>>, counts: seq<seq<nat>>, vocabMap: seq<nat>,
                        after: seq<string>, unk: int, texts: seq<seq<string>>)
    requires Ok(was) && Counters(was, start) && Ok(now) && Counters(now, counts) && |was| == |now| && WordsKnown(now, |after|)
    requires Permutes(vocabMap, |after|) && |after| > 0 && (unk == Invalid || unk == 1 < |after|)
    requires forall n: nat, g: seq<int> | 1 <= n < |was| && Within(g, |vocabMap|) ::
               CountsAre(was, start, now, counts, vocabMap, Numbered(after, unk, texts), n, g)
    requires forall n: nat, g: seq<int> | 1 <= n < |was| :: CountOf(was, start, n, g) == 0
    ensures var sents := Numbered(after, unk, texts);
            forall n: nat, g: seq<int> | 1 <= n < |now| :: CountOf(now, counts, n, g) == CorpusWindows(sents, |sents|, n, g)
  {
    hide Ok, Counters, CountOf, Has, CorpusWindows, WordsKnown, Numbered, Possible, Within;
    var sents := Numbered(after, unk, texts);
    KnownBelow(now, |after|);
    NumberedPossible(after, unk, texts);
    forall n: nat, g: seq<int> | 1 <= n < |now| ensures CountOf(now, counts, n, g) == CorpusWindows(sents, |sents|, n, g) {
      OnlyWords(now, counts, sents, |after|, n, g);
      if Within(g, |after|) {
        var f := Unrenamed(vocabMap, g);
        assert CountsAre(was, start, now, counts, vocabMap, sents, n, f);
      }
    }
  }

  lemma KnownBelow(ls: seq<seq<Key>>, vocab: nat)
    requires WordsKnown(ls, vocab)
    ensures WordsBelow(ls, vocab)
  {
  }

  lemma NumberedPossible(words: seq<string>, unk: int, sents: seq<seq<string>>)
    requires |words| > 0 && Invalid <= unk < |words|
    ensures forall s | 0 <= s < |sents| :: Possible(Numbered(words, unk, sents)[s], |words|)
  {
    forall s | 0 <= s < |sents| ensures Possible(Numbers(words, unk, sents[s]), |words|) {
      NumbersBelow(words, unk, sents[s]);
      NumbersFrom(words, unk, sents[s]);
    }
  }
}
