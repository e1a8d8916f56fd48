/** The submodular objective of the filter. */
module Objective {
  // value(S) = sum over features u of weight(u) * phi(sum over x in S of relevance(u, x)), from scratch.
  // Sets of sentences are sets of line indices of the mined corpus.

  import opened Reals
  import opened Concave

  /** A feature (n-gram). The selection loop overwrites only the running total. */
  class Feature {
    const idf: real
    const weight: real
    var prevTotalRelevance: real

    constructor (idf: real, weight: real)
      ensures this.idf == idf && this.weight == weight && prevTotalRelevance == 0.0
    {
      this.idf, this.weight, this.prevTotalRelevance := idf, weight, 0.0;
    }
  }

  /** A mined sentence: its line, its distinct features, their counts, its number of words. */
  datatype Sentence = Sentence(index: nat, features: seq<Feature>, counts: seq<nat>, length: nat)

  /** How often u occurs in a sentence with these features and counts. */
  function CountOf(features: seq<Feature>, counts: seq<nat>, u: Feature): nat
    requires |features| == |counts|
  {
    if features == [] then 0
    else (if features[0] == u then counts[0] else 0) + CountOf(features[1..], counts[1..], u)
  }

  ghost predicate WellFormed(universe: set<Feature>, x: Sentence) {
    && |x.features| == |x.counts|
    && 1 <= x.length
    && (forall i, j | 0 <= i < j < |x.features| :: x.features[i] != x.features[j])
    && forall u | u in x.features :: u in universe
  }

  lemma CountAt(features: seq<Feature>, counts: seq<nat>, k: nat)
    requires |features| == |counts| && k < |features|
    requires forall i, j | 0 <= i < j < |features| :: features[i] != features[j]
    ensures CountOf(features, counts, features[k]) == counts[k]
  {
    if k == 0 {
      CountAbsent(features[1..], counts[1..], features[0]);
    } else {
      CountAt(features[1..], counts[1..], k - 1);
    }
  }

  lemma CountAbsent(features: seq<Feature>, counts: seq<nat>, u: Feature)
    requires |features| == |counts| && u !in features
    ensures CountOf(features, counts, u) == 0
  {
  }

  /** The weighted sum of phi over the given totals, one per feature. */
  function Score(phi: real -> real, features: seq<Feature>, totals: map<Feature, real>): real
    requires forall u | u in features :: u in totals
  {
    if features == [] then 0.0
    else features[0].weight * phi(totals[features[0]]) + Score(phi, features[1..], totals)
  }

  /** Replacing one feature's total changes the score by that feature's own two terms. */
  lemma ScoreUpdate(phi: real -> real, features: seq<Feature>, totals: map<Feature, real>, u: Feature, r: real)
    requires forall v | v in features :: v in totals
    requires forall i, j | 0 <= i < j < |features| :: features[i] != features[j]
    requires u in features
    ensures Score(phi, features, totals[u := r])
         == Score(phi, features, totals) - u.weight * phi(totals[u]) + u.weight * phi(r)
  {
    if features[0] == u {
      ScoreAgrees(phi, features[1..], totals, totals[u := r]);
    } else {
      ScoreUpdate(phi, features[1..], totals, u, r);
    }
  }

  lemma ScoreAgrees(phi: real -> real, features: seq<Feature>, a: map<Feature, real>, b: map<Feature, real>)
    requires forall v | v in features :: v in a && v in b && a[v] == b[v]
    ensures Score(phi, features, a) == Score(phi, features, b)
  {
  }

  lemma ScoreMonotone(phi: real -> real, features: seq<Feature>, a: map<Feature, real>, b: map<Feature, real>)
    requires ConcaveGain(phi)
    requires forall v | v in features :: v.weight >= 0.0 && v in a && v in b && 0.0 <= a[v] <= b[v]
    ensures Score(phi, features, a) <= Score(phi, features, b)
  {
    if features != [] {
      var u := features[0];
      assert InOrder(phi, a[u], b[u]);
      ProductNonNegative(u.weight, phi(b[u]) - phi(a[u]));
      ScoreMonotone(phi, features[1..], a, b);
    }
  }

  lemma WeightedStep(w: real, a: real, a': real, b: real, b': real)
    requires w >= 0.0 && b' - b <= a' - a
    ensures w * b' - w * b <= w * a' - w * a
  {
    ProductNonNegative(w, (a' - a) - (b' - b));
  }

  /** Feature u's totals rise by the same amount from a to a' and from b to b', and b is the higher start. */
  ghost predicate SameRise(a: map<Feature, real>, a': map<Feature, real>,
                           b: map<Feature, real>, b': map<Feature, real>, u: Feature)
  {
    && u in a && u in a' && u in b && u in b'
    && 0.0 <= a[u] <= b[u] && a[u] <= a'[u] && b'[u] == b[u] + (a'[u] - a[u])
    && u.weight >= 0.0
  }

  /** From higher totals, the same increments raise the score by no more. */
  lemma {:induction false} ScoreDiminishing(phi: real -> real, features: seq<Feature>,
                                            a: map<Feature, real>, a': map<Feature, real>,
                                            b: map<Feature, real>, b': map<Feature, real>)
    requires ConcaveGain(phi)
    requires forall v | v in features :: v in a && v in a' && v in b && v in b'
    requires forall v | v in features :: SameRise(a, a', b, b', v)
    ensures Score(phi, features, b') - Score(phi, features, b)
         <= Score(phi, features, a') - Score(phi, features, a)
  {
    hide ConcaveGain, Score, Term;
    ScoreHead(phi, features, a);
    ScoreHead(phi, features, a');
    ScoreHead(phi, features, b);
    ScoreHead(phi, features, b');
    if features != [] {
      var u := features[0];
      assert SameRise(a, a', b, b', u);
      HeadDiminishing(phi, u, a, a', b, b');
      ScoreDiminishing(phi, features[1..], a, a', b, b');
    }
  }

  lemma ScoreHead(phi: real -> real, features: seq<Feature>, totals: map<Feature, real>)
    requires forall u | u in features :: u in totals
    ensures features == [] ==> Score(phi, features, totals) == 0.0
    ensures features != [] ==>
              Score(phi, features, totals) == Term(phi, features[0], totals) + Score(phi, features[1..], totals)
  {
  }

  ghost function Term(phi: real -> real, u: Feature, totals: map<Feature, real>): real
    requires u in totals
  {
    u.weight * phi(totals[u])
  }

  lemma HeadDiminishing(phi: real -> real, u: Feature, a: map<Feature, real>, a': map<Feature, real>,
                        b: map<Feature, real>, b': map<Feature, real>)
    requires ConcaveGain(phi) && SameRise(a, a', b, b', u)
    ensures Term(phi, u, b') - Term(phi, u, b) <= Term(phi, u, a') - Term(phi, u, a)
  {
    hide ConcaveGain;
    DiminishingStep(phi, a[u], b[u], a'[u] - a[u]);
    WeightedStep(u.weight, phi(a[u]), phi(a'[u]), phi(b[u]), phi(b'[u]));
  }

  /** One instance of the selection problem. */
  datatype Problem = Problem(phi: real -> real, universe: seq<Feature>, corpus: seq<Sentence>) {

    ghost predicate Valid() {
      && ConcaveGain(phi)
      && (forall i, j | 0 <= i < j < |universe| :: universe[i] != universe[j])
      && (forall u | u in universe :: u.idf >= 0.0 && u.weight >= 0.0)
      && (forall x | x in corpus :: WellFormed(Features(), x))
      && forall i, j | 0 <= i < j < |corpus| :: corpus[i].index != corpus[j].index
    }

    ghost function Features(): set<Feature> {
      set u | u in universe
    }

    /** The line indices of the corpus. */
    ghost function Lines(): set<nat> {
      set x | x in corpus :: x.index
    }

    /** Term frequency times inverse document frequency. */
    ghost function Relevance(u: Feature, x: Sentence): (r: real)
      requires Valid() && x in corpus && u in universe
      ensures r >= 0.0
      ensures u !in x.features ==> r == 0.0
    {
      if u !in x.features then CountAbsent(x.features, x.counts, u); 0.0 else
      var frequency := CountOf(x.features, x.counts, u) as real / x.length as real;
      ProductNonNegative(frequency, u.idf);
      frequency * u.idf
    }

    /** The relevance of a listed feature multiplied out: its count times its idf, over the sentence's words. */
    lemma RelevanceLaw(x: Sentence, k: nat)
      requires Valid() && x in corpus && k < |x.features|
      ensures x.features[k] in universe && |x.counts| == |x.features|
      ensures Relevance(x.features[k], x) * x.length as real == x.counts[k] as real * x.features[k].idf
    {
      assert WellFormed(Features(), x);
      assert x.features[k] in Features();
      CountAt(x.features, x.counts, k);
      Share(x.counts[k] as real, x.length as real, x.features[k].idf);
    }

    /** Total relevance of u over the chosen lines among the first n sentences. */
    ghost function Total(u: Feature, chosen: set<nat>, n: nat): (r: real)
      requires Valid() && u in universe && n <= |corpus|
      ensures r >= 0.0
    {
      if n == 0 then 0.0
      else Total(u, chosen, n - 1) + if corpus[n-1].index in chosen then Relevance(u, corpus[n-1]) else 0.0
    }

    ghost function Totals(chosen: set<nat>): (m: map<Feature, real>)
      requires Valid()
      ensures m.Keys == Features()
    {
      map u | u in universe :: Total(u, chosen, |corpus|)
    }

    /** The objective. */
    ghost function Value(chosen: set<nat>): real
      requires Valid()
    {
      Score(phi, universe, Totals(chosen))
    }

    ghost function Gain(chosen: set<nat>, x: Sentence): real
      requires Valid() && x in corpus
    {
      Value(chosen + {x.index}) - Value(chosen)
    }

    /** Gain per unit of cost; the cost of a sentence is its length. */
    ghost function Density(chosen: set<nat>, x: Sentence): real
      requires Valid() && x in corpus
    {
      Gain(chosen, x) / x.length as real
    }

    /** Total cost of the given lines among the first n sentences. */
    ghost function Cost(lines: set<nat>, n: nat): nat
      requires n <= |corpus|
    {
      if n == 0 then 0
      else Cost(lines, n - 1) + if corpus[n-1].index in lines then corpus[n-1].length else 0
    }

    lemma {:induction false} TotalAdd(u: Feature, chosen: set<nat>, k: nat, n: nat)
      requires Valid() && u in universe && n <= |corpus| && k < |corpus|
      requires corpus[k].index !in chosen
      ensures Total(u, chosen + {corpus[k].index}, n)
           == Total(u, chosen, n) + if k < n then Relevance(u, corpus[k]) else 0.0
    {
      if n > 0 {
        TotalAdd(u, chosen, k, n - 1);
        assert k != n - 1 ==> corpus[k].index != corpus[n-1].index;
      }
    }

    lemma {:induction false} TotalMonotone(u: Feature, a: set<nat>, b: set<nat>, n: nat)
      requires Valid() && u in universe && n <= |corpus| && a <= b
      ensures Total(u, a, n) <= Total(u, b, n)
    {
      if n > 0 {
        TotalMonotone(u, a, b, n - 1);
      }
    }

    /** Adding a sentence raises each total by that sentence's relevance, and nothing else. */
    lemma TotalsAdd(chosen: set<nat>, x: Sentence)
      requires Valid() && x in corpus && x.index !in chosen
      ensures forall u | u in universe ::
                Totals(chosen + {x.index})[u] == Totals(chosen)[u] + Relevance(u, x)
    {
      var k :| 0 <= k < |corpus| && corpus[k] == x;
      forall u | u in universe
        ensures Totals(chosen + {x.index})[u] == Totals(chosen)[u] + Relevance(u, x)
      {
        TotalAdd(u, chosen, k, |corpus|);
      }
    }

    lemma ValueMonotone(a: set<nat>, b: set<nat>)
      requires Valid() && a <= b
      ensures Value(a) <= Value(b)
    {
      forall u | u in universe ensures Total(u, a, |corpus|) <= Total(u, b, |corpus|) {
        TotalMonotone(u, a, b, |corpus|);
      }
      ScoreMonotone(phi, universe, Totals(a), Totals(b));
    }

    /** Submodularity: a sentence never gains more from a larger selection. */
    lemma Submodular(a: set<nat>, b: set<nat>, x: Sentence)
      requires Valid() && a <= b && x in corpus
      ensures Gain(b, x) <= Gain(a, x)
    {
      if x.index in b {
        assert b + {x.index} == b;
        ValueMonotone(a, a + {x.index});
      } else {
        TotalsAdd(a, x);
        TotalsAdd(b, x);
        forall u | u in universe ensures Total(u, a, |corpus|) <= Total(u, b, |corpus|) {
          TotalMonotone(u, a, b, |corpus|);
        }
        ScoreDiminishing(phi, universe, Totals(a), Totals(a + {x.index}), Totals(b), Totals(b + {x.index}));
      }
    }

    lemma {:induction false} EmptyTotal(u: Feature, n: nat)
      requires Valid() && u in universe && n <= |corpus|
      ensures Total(u, {}, n) == 0.0
    {
      if n > 0 {
        EmptyTotal(u, n - 1);
      }
    }

    lemma EmptyValue()
      requires Valid()
      ensures Value({}) == 0.0
    {
      forall u | u in universe ensures Total(u, {}, |corpus|) == 0.0 {
        EmptyTotal(u, |corpus|);
      }
      ZeroScore(phi, universe, Totals({}));
    }

    /** Sentences that are not chosen yet. */
    ghost function Remaining(chosen: set<nat>): set<Sentence> {
      set x | x in corpus && x.index !in chosen
    }

    lemma SentenceFacts(x: Sentence)
      requires Valid() && x in corpus
      ensures x.length >= 1 && |x.features| == |x.counts|
    {
      assert WellFormed(Features(), x);
    }

    lemma LinesAreDistinct(x: Sentence, y: Sentence)
      requires Valid() && x in corpus && y in corpus && x.index == y.index
      ensures x == y
    {
      var i :| 0 <= i < |corpus| && corpus[i] == x;
      var j :| 0 <= j < |corpus| && corpus[j] == y;
    }
  }

  lemma Share(c: real, n: real, w: real)
    requires n > 0.0
    ensures c / n * w * n == c * w
  {
    var f := c / n;
    assert f * n == c;
    assert f * w * n == f * n * w;
  }

  lemma ZeroScore(phi: real -> real, features: seq<Feature>, totals: map<Feature, real>)
    requires ConcaveGain(phi)
    requires forall u | u in features :: u in totals && totals[u] == 0.0
    ensures Score(phi, features, totals) == 0.0
  {
    if features != [] {
      ZeroScore(phi, features[1..], totals);
    }
  }
}
