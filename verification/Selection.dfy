/** The lazy greedy selection loop. */
module Selection {
  // Incremental objective values and a priority queue of stale upper bounds, proved to make exactly the choices
  // of plain greedy selection.

  import opened Concave
  import opened Objective
  import opened Greedy

  /** A sentence with the upper bound on its gain per unit of cost that the queue orders by. */
  datatype Entry = Entry(sentence: Sentence, maxMarginalGain: real)

  predicate Greatest(items: multiset<Entry>, e: Entry) {
    e in items && forall f | f in items :: f.maxMarginalGain <= e.maxMarginalGain
  }

  /** A max-priority queue; ties are broken arbitrarily. */
  class SentenceQueue {
    var items: multiset<Entry>

    constructor ()
      ensures items == multiset{}
    {
      items := multiset{};
    }

    method Top() returns (e: Entry)
      requires items != multiset{}
      ensures Greatest(items, e)
    {
      HasGreatest(items);
      e :| e in items && Greatest(items, e);
    }

    method Push(e: Entry)
      modifies this
      ensures items == old(items) + multiset{e}
    {
      items := items + multiset{e};
    }

    method TakeTop() returns (e: Entry)
      requires items != multiset{}
      modifies this
      ensures Greatest(old(items), e)
      ensures items == old(items) - multiset{e}
    {
      e := Top();
      items := items - multiset{e};
    }
  }

  lemma {:induction false} HasGreatest(items: multiset<Entry>)
    requires items != multiset{}
    ensures exists e :: e in items && Greatest(items, e)
    decreases |items|
  {
    var e :| e in items;
    var rest := items - multiset{e};
    assert items == rest + multiset{e};
    if rest == multiset{} {
      assert Greatest(items, e);
    } else {
      HasGreatest(rest);
      var t :| t in rest && Greatest(rest, t);
      var best := if t.maxMarginalGain < e.maxMarginalGain then e else t;
      assert Greatest(items, best);
    }
  }

  // ---------- incremental evaluation ----------

  /** The running totals stored in the features are those of the chosen lines. */
  ghost predicate Tracks(p: Problem, chosen: set<nat>)
    requires p.Valid()
    reads p.universe
  {
    forall u | u in p.universe :: u.prevTotalRelevance == p.Total(u, chosen, |p.corpus|)
  }

  /** For each feature of x, its total once x joins the chosen lines. */
  ghost predicate TotalsWith(p: Problem, chosen: set<nat>, x: Sentence, updates: map<Feature, real>)
    requires p.Valid() && x in p.corpus
  {
    && updates.Keys == (set u | u in x.features)
    && forall u | u in updates :: u in p.universe
         && updates[u] == p.Total(u, chosen, |p.corpus|) + p.Relevance(u, x)
  }

  /** The totals once the first k features of x have been brought up to date. */
  ghost function PartialTotals(p: Problem, chosen: set<nat>, x: Sentence, k: nat): map<Feature, real>
    requires p.Valid() && x in p.corpus && k <= |x.features|
    ensures PartialTotals(p, chosen, x, k).Keys == p.Features()
  {
    map u | u in p.universe ::
      p.Total(u, chosen, |p.corpus|) + if u in x.features[..k] then p.Relevance(u, x) else 0.0
  }

  ghost function PartialScore(p: Problem, chosen: set<nat>, x: Sentence, k: nat): real
    requires p.Valid() && x in p.corpus && k <= |x.features|
  {
    Score(p.phi, p.universe, PartialTotals(p, chosen, x, k))
  }

  lemma FeatureAt(p: Problem, x: Sentence, k: nat)
    requires p.Valid() && x in p.corpus && k < |x.features|
    ensures x.features[k] in p.universe && x.features[k] !in x.features[..k]
    ensures |x.counts| == |x.features| && x.length > 0
    ensures p.Relevance(x.features[k], x) == x.counts[k] as real / x.length as real * x.features[k].idf
  {
    assert WellFormed(p.Features(), x);
    assert x.features[k] in p.Features();
    CountAt(x.features, x.counts, k);
  }

  lemma PartialStep(p: Problem, chosen: set<nat>, x: Sentence, k: nat, u: Feature)
    requires p.Valid() && x in p.corpus && k < |x.features| && u == x.features[k] && u in p.universe
    ensures PartialScore(p, chosen, x, k + 1)
         == PartialScore(p, chosen, x, k)
            - u.weight * p.phi(p.Total(u, chosen, |p.corpus|))
            + u.weight * p.phi(p.Total(u, chosen, |p.corpus|) + p.Relevance(u, x))
  {
    hide Problem.Valid, Problem.Relevance, Problem.Total, PartialTotals;
    FeatureAt(p, x, k);
    NextTotals(p, chosen, x, k, u);
    UniverseFacts(p);
    UpdatedScore(p, PartialTotals(p, chosen, x, k), u, p.Total(u, chosen, |p.corpus|), p.Relevance(u, x));
  }

  lemma UpdatedScore(p: Problem, totals: map<Feature, real>, u: Feature, total: real, more: real)
    requires forall v | v in p.universe :: v in totals
    requires forall i, j | 0 <= i < j < |p.universe| :: p.universe[i] != p.universe[j]
    requires u in p.universe && totals[u] == total
    ensures Score(p.phi, p.universe, totals[u := total + more])
         == Score(p.phi, p.universe, totals) - u.weight * p.phi(total) + u.weight * p.phi(total + more)
  {
    hide Score;
    ScoreUpdate(p.phi, p.universe, totals, u, total + more);
  }

  lemma UniverseFacts(p: Problem)
    requires p.Valid()
    ensures p.Features() == set u | u in p.universe
    ensures forall i, j | 0 <= i < j < |p.universe| :: p.universe[i] != p.universe[j]
  {
  }

  lemma NextTotals(p: Problem, chosen: set<nat>, x: Sentence, k: nat, u: Feature)
    requires p.Valid() && x in p.corpus && k < |x.features| && u == x.features[k] && u in p.universe
    requires u !in x.features[..k]
    ensures u in PartialTotals(p, chosen, x, k) && PartialTotals(p, chosen, x, k)[u] == p.Total(u, chosen, |p.corpus|)
    ensures PartialTotals(p, chosen, x, k + 1)
         == PartialTotals(p, chosen, x, k)[u := p.Total(u, chosen, |p.corpus|) + p.Relevance(u, x)]
  {
    hide Problem.Valid, Problem.Relevance, Problem.Total;
    assert x.features[..k+1] == x.features[..k] + [u];
  }

  lemma NoOtherRelevance(p: Problem, x: Sentence)
    requires p.Valid() && x in p.corpus
    ensures forall u | u in p.universe && u !in x.features :: p.Relevance(u, x) == 0.0
  {
  }

  lemma PartialEnds(p: Problem, chosen: set<nat>, x: Sentence)
    requires p.Valid() && x in p.corpus && x.index !in chosen
    ensures PartialScore(p, chosen, x, 0) == p.Value(chosen)
    ensures PartialScore(p, chosen, x, |x.features|) == p.Value(chosen + {x.index})
  {
    hide Problem.Valid, Score, Problem.Relevance, Problem.Total;
    p.TotalsAdd(chosen, x);
    NoOtherRelevance(p, x);
    assert x.features[..|x.features|] == x.features;
    assert PartialTotals(p, chosen, x, 0) == p.Totals(chosen);
    assert PartialTotals(p, chosen, x, |x.features|) == p.Totals(chosen + {x.index});
  }

  method SubmodularFunction(p: Problem, e: Entry, prevFuncValue: real, ghost chosen: set<nat>)
    returns (e': Entry, funcValue: real, updates: map<Feature, real>)
    requires p.Valid() && e.sentence in p.corpus && e.sentence.index !in chosen
    requires Tracks(p, chosen)
    ensures e' == Entry(e.sentence, p.Gain(chosen, e.sentence))
    ensures funcValue == prevFuncValue + p.Gain(chosen, e.sentence)
    ensures TotalsWith(p, chosen, e.sentence, updates)
  {
    hide Problem.Valid, PartialScore, Problem.Value, Problem.Relevance;
    var x := e.sentence;
    PartialEnds(p, chosen, x);
    funcValue, updates := prevFuncValue, map[];
    for k := 0 to |x.features|
      invariant funcValue - prevFuncValue
             == PartialScore(p, chosen, x, k) - p.Value(chosen)
      invariant updates.Keys == set u | u in x.features[..k]
      invariant forall u | u in updates :: u in p.universe
                  && updates[u] == p.Total(u, chosen, |p.corpus|) + p.Relevance(u, x)
    {
      FeatureAt(p, x, k);
      var u, count := x.features[k], x.counts[k];
      PartialStep(p, chosen, x, k, u);
      var frequency := count as real / x.length as real;
      var relevanceScore := frequency * u.idf + u.prevTotalRelevance;
      assert relevanceScore == p.Total(u, chosen, |p.corpus|) + p.Relevance(u, x);
      funcValue := funcValue - u.weight * p.phi(u.prevTotalRelevance);
      funcValue := funcValue + u.weight * p.phi(relevanceScore);
      assert x.features[..k+1] == x.features[..k] + [u];
      updates := updates[u := relevanceScore];
    }
    assert x.features[..|x.features|] == x.features;
    e' := Entry(x, funcValue - prevFuncValue);
  }

  /** e carries its true gain per unit of cost, and adopting it would give this value and these totals. */
  ghost predicate Evaluated(p: Problem, chosen: set<nat>, prevFuncValue: real,
                            e: Entry, funcValue: real, updates: map<Feature, real>)
    requires p.Valid() && e.sentence in p.corpus
  {
    && e.maxMarginalGain == p.Density(chosen, e.sentence)
    && funcValue == prevFuncValue + p.Gain(chosen, e.sentence)
    && TotalsWith(p, chosen, e.sentence, updates)
  }

  /** As above, with the gain put per unit of cost before it is used for ordering. */
  method Evaluate(p: Problem, e: Entry, prevFuncValue: real, ghost chosen: set<nat>)
    returns (e': Entry, funcValue: real, updates: map<Feature, real>)
    requires p.Valid() && e.sentence in p.corpus && e.sentence.index !in chosen
    requires Tracks(p, chosen)
    ensures e'.sentence == e.sentence && Evaluated(p, chosen, prevFuncValue, e', funcValue, updates)
  {
    hide Problem.Valid, Problem.Gain, Problem.Relevance, TotalsWith;
    p.SentenceFacts(e.sentence);
    e', funcValue, updates := SubmodularFunction(p, e, prevFuncValue, chosen);
    e' := e'.(maxMarginalGain := e'.maxMarginalGain / e.sentence.length as real);
  }

  /** Makes the new totals of a chosen sentence's features permanent. */
  method UpdateFeatures(p: Problem, updates: map<Feature, real>, ghost chosen: set<nat>, ghost x: Sentence)
    requires p.Valid() && x in p.corpus && x.index !in chosen
    requires Tracks(p, chosen) && TotalsWith(p, chosen, x, updates)
    modifies updates.Keys
    ensures forall u | u in updates :: u.prevTotalRelevance == updates[u]
    ensures Tracks(p, chosen + {x.index})
  {
    hide Problem.Valid, Problem.Total, Problem.Relevance;
    var todo := updates.Keys;
    while todo != {}
      invariant todo <= updates.Keys
      invariant forall u | u in updates && u !in todo :: u.prevTotalRelevance == updates[u]
      invariant forall u | u in p.universe && u !in updates ::
                  u.prevTotalRelevance == p.Total(u, chosen, |p.corpus|)
      decreases todo
    {
      var u :| u in todo;
      u.prevTotalRelevance := updates[u];
      todo := todo - {u};
    }
    TotalsAfter(p, chosen, x, updates);
  }

  lemma TotalsAfter(p: Problem, chosen: set<nat>, x: Sentence, updates: map<Feature, real>)
    requires p.Valid() && x in p.corpus && x.index !in chosen && TotalsWith(p, chosen, x, updates)
    ensures forall u | u in p.universe ::
              p.Total(u, chosen + {x.index}, |p.corpus|) ==
              (if u in updates then updates[u] else p.Total(u, chosen, |p.corpus|))
  {
    p.TotalsAdd(chosen, x);
  }

  // ---------- the queue of bounds ----------

  ghost function SentencesIn(items: multiset<Entry>): set<Sentence> {
    set e | e in items :: e.sentence
  }

  /** Each queued bound is at least the true current gain per unit of cost. */
  ghost predicate Bounds(p: Problem, chosen: set<nat>, items: multiset<Entry>)
    requires p.Valid()
  {
    forall e | e in items :: e.sentence in p.corpus && e.maxMarginalGain >= p.Density(chosen, e.sentence)
  }

  /** No sentence is queued twice. */
  ghost predicate Distinct(items: multiset<Entry>) {
    && (forall e | e in items :: items[e] == 1)
    && forall e, f | e in items && f in items && e.sentence == f.sentence :: e == f
  }

  ghost predicate QueueInv(p: Problem, chosen: set<nat>, items: multiset<Entry>, pending: set<Sentence>)
    requires p.Valid()
  {
    Bounds(p, chosen, items) && Distinct(items) && SentencesIn(items) == pending
  }

  /** Entries whose bound is out of date. */
  ghost function Stale(p: Problem, chosen: set<nat>, items: multiset<Entry>): set<Entry>
    requires p.Valid()
  {
    set e | e in items && e.sentence in p.corpus && e.maxMarginalGain != p.Density(chosen, e.sentence)
  }

  lemma TakeKeeps(p: Problem, chosen: set<nat>, items: multiset<Entry>, pending: set<Sentence>, e: Entry)
    requires p.Valid() && QueueInv(p, chosen, items, pending) && e in items
    ensures QueueInv(p, chosen, items - multiset{e}, pending - {e.sentence})
    ensures e.sentence in pending
  {
    hide Problem.Valid;
    var rest := items - multiset{e};
    assert forall f :: f in rest <==> f in items && f != e;
  }

  lemma PushKeeps(p: Problem, chosen: set<nat>, items: multiset<Entry>, pending: set<Sentence>, e: Entry)
    requires p.Valid() && QueueInv(p, chosen, items, pending)
    requires e.sentence in p.corpus && e.sentence !in pending && e.maxMarginalGain >= p.Density(chosen, e.sentence)
    ensures QueueInv(p, chosen, items + multiset{e}, pending + {e.sentence})
  {
    hide Problem.Valid;
    var more := items + multiset{e};
    assert forall f :: f in more <==> f in items || f == e;
  }

  /** Bounds stay bounds when the selection grows: this is where submodularity is used. */
  lemma GrowKeeps(p: Problem, chosen: set<nat>, items: multiset<Entry>, pending: set<Sentence>, x: Sentence)
    requires p.Valid() && QueueInv(p, chosen, items, pending)
    ensures QueueInv(p, chosen + {x.index}, items, pending)
  {
    forall e | e in items ensures e.maxMarginalGain >= p.Density(chosen + {x.index}, e.sentence) {
      DensityShrinks(p, chosen, chosen + {x.index}, e.sentence);
    }
  }

  lemma DensityShrinks(p: Problem, a: set<nat>, b: set<nat>, x: Sentence)
    requires p.Valid() && a <= b && x in p.corpus
    ensures p.Density(b, x) <= p.Density(a, x)
  {
    hide Problem.Valid, Problem.Gain;
    p.SentenceFacts(x);
    p.Submodular(a, b, x);
    QuotientMonotone(p.Gain(b, x), p.Gain(a, x), x.length as real);
  }

  lemma QuotientMonotone(a: real, b: real, c: real)
    requires a <= b && 0.0 < c
    ensures a / c <= b / c
  {
    var q, r := a / c, b / c;
    assert q * c == a && r * c == b;
    if r < q {
      MulStrict(r, q, c);
    }
  }

  /** Re-evaluating the top either refreshes a stale entry or proves the top is the best there is. */
  lemma LazyStep(p: Problem, chosen: set<nat>, items: multiset<Entry>, e: Entry, next: Entry)
    requires p.Valid() && Bounds(p, chosen, items) && Distinct(items)
    requires e !in items && e.sentence in p.corpus && e.maxMarginalGain == p.Density(chosen, e.sentence)
    requires Greatest(items + multiset{e}, next) && next != e
    ensures Bounds(p, chosen, items + multiset{e} - multiset{next})
    ensures var rest := items + multiset{e} - multiset{next};
            || Stale(p, chosen, rest) < Stale(p, chosen, items)
            || (Stale(p, chosen, rest) == Stale(p, chosen, items)
                && next.maxMarginalGain == p.Density(chosen, next.sentence))
  {
    hide Problem.Valid;
    var rest := items + multiset{e} - multiset{next};
    assert next in items;
    assert forall f :: f in rest <==> (f in items && f != next) || f == e;
    assert Stale(p, chosen, rest) == Stale(p, chosen, items) - {next};
  }

  // ---------- the selection loop ----------

  /** Evaluates every sentence against the empty selection. */
  method InitialQueue(p: Problem) returns (queue: SentenceQueue)
    requires p.Valid() && Tracks(p, {})
    ensures fresh(queue)
    ensures QueueInv(p, {}, queue.items, p.Remaining({}))
  {
    hide Problem.Valid, QueueInv, Tracks, Problem.Density;
    queue := new SentenceQueue();
    ghost var pending: set<Sentence> := {};
    EmptyQueue(p);
    for i := 0 to |p.corpus|
      invariant fresh(queue)
      invariant Tracks(p, {})
      invariant pending == set x | x in p.corpus[..i]
      invariant QueueInv(p, {}, queue.items, pending)
    {
      var e, _, _ := Evaluate(p, Entry(p.corpus[i], 0.0), 0.0, {});
      NotYetSeen(p, i);
      PushKeeps(p, {}, queue.items, pending, e);
      queue.Push(e);
      pending := pending + {p.corpus[i]};
      assert p.corpus[..i+1] == p.corpus[..i] + [p.corpus[i]];
    }
    assert p.corpus[..|p.corpus|] == p.corpus;
    assert pending == p.Remaining({});
  }

  lemma EmptyQueue(p: Problem)
    requires p.Valid()
    ensures QueueInv(p, {}, multiset{}, {})
  {
  }

  lemma NotYetSeen(p: Problem, i: nat)
    requires p.Valid() && i < |p.corpus|
    ensures p.corpus[i] !in p.corpus[..i]
  {
  }

  /** With a fresh entry at or above every queued bound, that entry is a true greedy choice. */
  lemma LazyIsGreedy(p: Problem, chosen: set<nat>, items: multiset<Entry>, e: Entry, top: Entry)
    requires p.Valid() && e.sentence in p.Remaining(chosen)
    requires QueueInv(p, chosen, items, p.Remaining(chosen) - {e.sentence})
    requires e.maxMarginalGain == p.Density(chosen, e.sentence)
    requires items != multiset{} ==> Greatest(items, top) && top.maxMarginalGain <= e.maxMarginalGain
    ensures GreedyPick(p, chosen, e.sentence)
  {
    hide Problem.Valid, Problem.Density;
    forall y | y in p.Remaining(chosen) && y != e.sentence
      ensures p.Density(chosen, y) <= p.Density(chosen, e.sentence)
    {
      assert y in SentencesIn(items);
      var f :| f in items && f.sentence == y;
    }
  }

  /** One turn of the inner loop: the entry goes back and the top comes out. */
  lemma TurnKeeps(p: Problem, chosen: set<nat>, items: multiset<Entry>, e: Entry, top: Entry, next: Entry)
    requires p.Valid() && e.sentence in p.Remaining(chosen) && e.maxMarginalGain == p.Density(chosen, e.sentence)
    requires QueueInv(p, chosen, items, p.Remaining(chosen) - {e.sentence})
    requires Greatest(items, top) && e.maxMarginalGain < top.maxMarginalGain
    requires Greatest(items + multiset{e}, next)
    ensures next in items && next.sentence in p.Remaining(chosen)
    ensures |items + multiset{e} - multiset{next}| == |items|
    ensures QueueInv(p, chosen, items + multiset{e} - multiset{next}, p.Remaining(chosen) - {next.sentence})
    ensures var rest := items + multiset{e} - multiset{next};
            || Stale(p, chosen, rest) < Stale(p, chosen, items)
            || (Stale(p, chosen, rest) == Stale(p, chosen, items)
                && next.maxMarginalGain == p.Density(chosen, next.sentence))
  {
    hide Problem.Valid, Problem.Density, Stale;
    var pending := p.Remaining(chosen);
    PushKeeps(p, chosen, items, pending - {e.sentence}, e);
    assert pending - {e.sentence} + {e.sentence} == pending;
    assert e !in items by {
      assert e.sentence !in SentencesIn(items);
    }
    assert top in items + multiset{e};
    assert next != e;
    LazyStep(p, chosen, items, e, next);
    TakeKeeps(p, chosen, items + multiset{e}, pending, next);
  }

  /** The inner loop's invariant: one evaluated entry in hand, every other remaining sentence queued. */
  ghost predicate InHand(p: Problem, chosen: set<nat>, prevFuncValue: real, items: multiset<Entry>, size: nat,
                         e: Entry, funcValue: real, updates: map<Feature, real>)
    requires p.Valid()
  {
    && e.sentence in p.Remaining(chosen)
    && Evaluated(p, chosen, prevFuncValue, e, funcValue, updates)
    && QueueInv(p, chosen, items, p.Remaining(chosen) - {e.sentence})
    && |items| == size
  }

  lemma Taken(p: Problem, chosen: set<nat>, prevFuncValue: real, items: multiset<Entry>, first: Entry,
              e: Entry, funcValue: real, updates: map<Feature, real>)
    requires p.Valid() && QueueInv(p, chosen, items, p.Remaining(chosen)) && first in items
    requires e.sentence == first.sentence && first.sentence in p.corpus
    requires Evaluated(p, chosen, prevFuncValue, e, funcValue, updates)
    ensures InHand(p, chosen, prevFuncValue, items - multiset{first}, |items| - 1, e, funcValue, updates)
  {
    hide Problem.Valid, Evaluated, QueueInv;
    TakeKeeps(p, chosen, items, p.Remaining(chosen), first);
  }

  lemma Turned(p: Problem, chosen: set<nat>, prevFuncValue: real, items: multiset<Entry>, size: nat,
               e: Entry, v: real, u: map<Feature, real>, top: Entry, next: Entry,
               e': Entry, v': real, u': map<Feature, real>)
    requires p.Valid() && InHand(p, chosen, prevFuncValue, items, size, e, v, u)
    requires Greatest(items, top) && e.maxMarginalGain < top.maxMarginalGain
    requires Greatest(items + multiset{e}, next) && next.sentence in p.corpus
    requires e'.sentence == next.sentence && Evaluated(p, chosen, prevFuncValue, e', v', u')
    ensures InHand(p, chosen, prevFuncValue, items + multiset{e} - multiset{next}, size, e', v', u')
    ensures var rest := items + multiset{e} - multiset{next};
            || Stale(p, chosen, rest) < Stale(p, chosen, items)
            || (Stale(p, chosen, rest) == Stale(p, chosen, items)
                && forall f | Greatest(rest, f) :: f.maxMarginalGain <= e'.maxMarginalGain)
  {
    hide Problem.Valid, Problem.Density, Problem.Gain, QueueInv, Stale, TotalsWith;
    TurnKeeps(p, chosen, items, e, top, next);
    var rest := items + multiset{e} - multiset{next};
    assert forall f | f in rest :: f in items + multiset{e};
    assert forall f | Greatest(rest, f) :: f in rest;
  }

  lemma NextIsOpen(p: Problem, chosen: set<nat>, prevFuncValue: real, items: multiset<Entry>, size: nat,
                   e: Entry, v: real, u: map<Feature, real>, top: Entry, next: Entry)
    requires p.Valid() && InHand(p, chosen, prevFuncValue, items, size, e, v, u)
    requires Greatest(items, top) && e.maxMarginalGain < top.maxMarginalGain
    requires Greatest(items + multiset{e}, next)
    ensures next.sentence in p.corpus && next.sentence.index !in chosen
  {
    hide Problem.Valid, Problem.Density, Problem.Gain, QueueInv, Stale, TotalsWith;
    TurnKeeps(p, chosen, items, e, top, next);
  }

  /** Puts the entry in hand back and evaluates the top instead. */
  method Turn(p: Problem, queue: SentenceQueue, prevFuncValue: real, e: Entry, ghost v: real,
              ghost u: map<Feature, real>, ghost top: Entry, ghost chosen: set<nat>, ghost size: nat)
    returns (e': Entry, funcValue: real, updates: map<Feature, real>)
    requires p.Valid() && Tracks(p, chosen)
    requires InHand(p, chosen, prevFuncValue, queue.items, size, e, v, u)
    requires Greatest(queue.items, top) && e.maxMarginalGain < top.maxMarginalGain
    modifies queue
    ensures Tracks(p, chosen)
    ensures InHand(p, chosen, prevFuncValue, queue.items, size, e', funcValue, updates)
    ensures |queue.items| == size
    ensures || Stale(p, chosen, queue.items) < Stale(p, chosen, old(queue.items))
            || (Stale(p, chosen, queue.items) == Stale(p, chosen, old(queue.items))
                && forall f | Greatest(queue.items, f) :: f.maxMarginalGain <= e'.maxMarginalGain)
  {
    hide *;
    ghost var items := queue.items;
    queue.Push(e);
    var next := queue.TakeTop();
    NextIsOpen(p, chosen, prevFuncValue, items, size, e, v, u, top, next);
    e', funcValue, updates := Evaluate(p, next, prevFuncValue, chosen);
    Turned(p, chosen, prevFuncValue, items, size, e, v, u, top, next, e', funcValue, updates);
    InHandSize(p, chosen, prevFuncValue, queue.items, size, e', funcValue, updates);
  }

  /** Takes and evaluates the first candidate. */
  method FirstCandidate(p: Problem, queue: SentenceQueue, prevFuncValue: real, ghost chosen: set<nat>)
    returns (e: Entry, funcValue: real, updates: map<Feature, real>)
    requires p.Valid() && Tracks(p, chosen)
    requires QueueInv(p, chosen, queue.items, p.Remaining(chosen)) && |queue.items| >= 2
    modifies queue
    ensures Tracks(p, chosen)
    ensures InHand(p, chosen, prevFuncValue, queue.items, |old(queue.items)| - 1, e, funcValue, updates)
    ensures |queue.items| == |old(queue.items)| - 1
  {
    hide *;
    var first := queue.TakeTop();
    FirstIsOpen(p, chosen, old(queue.items), first);
    e, funcValue, updates := Evaluate(p, first, prevFuncValue, chosen);
    Taken(p, chosen, prevFuncValue, old(queue.items), first, e, funcValue, updates);
  }

  /** Pops until the re-evaluated top still beats every remaining bound. */
  method PickBest(p: Problem, queue: SentenceQueue, prevFuncValue: real, ghost chosen: set<nat>)
    returns (e: Entry, funcValue: real, updates: map<Feature, real>)
    requires p.Valid() && Tracks(p, chosen)
    requires QueueInv(p, chosen, queue.items, p.Remaining(chosen)) && |queue.items| >= 2
    modifies queue
    ensures GreedyPick(p, chosen, e.sentence)
    ensures QueueInv(p, chosen, queue.items, p.Remaining(chosen) - {e.sentence})
    ensures |queue.items| == |old(queue.items)| - 1
    ensures funcValue == prevFuncValue + p.Gain(chosen, e.sentence)
    ensures TotalsWith(p, chosen, e.sentence, updates)
  {
    hide *;
    ghost var size := |queue.items| - 1;
    e, funcValue, updates := FirstCandidate(p, queue, prevFuncValue, chosen);
    var top := queue.Top();
    while e.maxMarginalGain < top.maxMarginalGain
      invariant Tracks(p, chosen)
      invariant InHand(p, chosen, prevFuncValue, queue.items, size, e, funcValue, updates)
      invariant Greatest(queue.items, top)
      decreases Stale(p, chosen, queue.items), if e.maxMarginalGain < top.maxMarginalGain then 1 else 0
    {
      e, funcValue, updates := Turn(p, queue, prevFuncValue, e, funcValue, updates, top, chosen, size);
      top := queue.Top();
    }
    Settled(p, chosen, prevFuncValue, queue.items, size, e, funcValue, updates, top);
  }

  lemma FirstIsOpen(p: Problem, chosen: set<nat>, items: multiset<Entry>, first: Entry)
    requires p.Valid() && QueueInv(p, chosen, items, p.Remaining(chosen)) && first in items
    ensures first.sentence in p.corpus && first.sentence.index !in chosen
  {
    hide Problem.Valid, QueueInv;
    TakeKeeps(p, chosen, items, p.Remaining(chosen), first);
  }

  lemma InHandSize(p: Problem, chosen: set<nat>, prevFuncValue: real, items: multiset<Entry>, size: nat,
                   e: Entry, v: real, u: map<Feature, real>)
    requires p.Valid() && InHand(p, chosen, prevFuncValue, items, size, e, v, u)
    ensures |items| == size
  {
  }

  lemma Settled(p: Problem, chosen: set<nat>, prevFuncValue: real, items: multiset<Entry>, size: nat,
                e: Entry, funcValue: real, updates: map<Feature, real>, top: Entry)
    requires p.Valid() && InHand(p, chosen, prevFuncValue, items, size, e, funcValue, updates)
    requires Greatest(items, top) && top.maxMarginalGain <= e.maxMarginalGain
    ensures GreedyPick(p, chosen, e.sentence) && |items| == size
    ensures QueueInv(p, chosen, items, p.Remaining(chosen) - {e.sentence})
    ensures funcValue == prevFuncValue + p.Gain(chosen, e.sentence)
    ensures TotalsWith(p, chosen, e.sentence, updates)
  {
    hide Problem.Valid, Problem.Density, Problem.Gain, QueueInv, TotalsWith, GreedyPick;
    LazyIsGreedy(p, chosen, items, e, top);
  }

  /** The line numbers of the picks, in the order they were made. */
  ghost function Indices(picks: seq<Sentence>): seq<nat> {
    if picks == [] then [] else Indices(picks[..|picks|-1]) + [picks[|picks|-1].index]
  }

  lemma SnocFacts(p: Problem, budget: nat, picks: seq<Sentence>, x: Sentence)
    requires p.Valid() && GreedyRun(p, budget, picks) && CostOf(picks) < budget
    requires GreedyPick(p, LinesOf(picks), x)
    ensures GreedyRun(p, budget, picks + [x])
    ensures CostOf(picks + [x]) == CostOf(picks) + x.length
    ensures LinesOf(picks + [x]) == LinesOf(picks) + {x.index}
    ensures p.Remaining(LinesOf(picks + [x])) == p.Remaining(LinesOf(picks)) - {x}
    ensures Indices(picks + [x]) == Indices(picks) + [x.index]
    ensures x in p.corpus && x.index !in LinesOf(picks) && x.length > 0
  {
    hide Problem.Valid;
    p.SentenceFacts(x);
    assert (picks + [x])[..|picks|] == picks;
    LinesOfSnoc(picks, x);
    forall y | y in p.Remaining(LinesOf(picks)) && y != x ensures y.index != x.index {
      if y.index == x.index {
        p.LinesAreDistinct(x, y);
      }
    }
  }

  lemma LastOne(p: Problem, chosen: set<nat>, items: multiset<Entry>, e: Entry)
    requires p.Valid() && QueueInv(p, chosen, items, p.Remaining(chosen)) && |items| == 1 && e in items
    ensures GreedyPick(p, chosen, e.sentence) && p.Remaining(chosen) == {e.sentence}
  {
    hide Problem.Valid, Problem.Density;
    var rest := items - multiset{e};
    assert |rest| == 0;
    assert items == multiset{e} + rest;
    assert SentencesIn(items) == {e.sentence};
  }

  lemma UpdatesAreFeatures(p: Problem, chosen: set<nat>, x: Sentence, updates: map<Feature, real>)
    requires p.Valid() && x in p.corpus && TotalsWith(p, chosen, x, updates)
    ensures forall u | u in updates.Keys :: u in p.universe
  {
  }

  lemma NoPicks(p: Problem, budget: nat)
    requires p.Valid()
    ensures GreedyRun(p, budget, []) && CostOf([]) == 0 && Indices([]) == [] && LinesOf([]) == {} && p.Value({}) == 0.0
  {
    p.EmptyValue();
  }

  lemma NothingQueued(p: Problem, chosen: set<nat>, items: multiset<Entry>)
    requires p.Valid() && QueueInv(p, chosen, items, p.Remaining(chosen)) && |items| == 0
    ensures p.Remaining(chosen) == {}
  {
    hide Problem.Valid, Problem.Density;
  }

  /** The main loop: a complete greedy run, whatever the corpus and the budget. */
  method Select(p: Problem, budget: nat) returns (chosen: seq<nat>, totalCost: nat, ghost picks: seq<Sentence>)
    requires p.Valid() && Tracks(p, {})
    modifies p.universe
    ensures GreedyRun(p, budget, picks) && Finished(p, budget, picks)
    ensures chosen == Indices(picks)
    ensures totalCost <= CostOf(picks)
    ensures picks != [] ==> CostOf(picks) < budget + picks[|picks|-1].length
  {
    hide Problem.Valid, Problem.Relevance, Problem.Total, GreedyPick, QueueInv, GreedyRun, CostOf, LinesOf, Indices, Tracks, TotalsWith, Problem.Value, Problem.Density, Problem.Remaining;
    var queue := InitialQueue(p);
    chosen, picks := [], [];
    NoPicks(p, budget);
    var prevSubmodValue := 0.0;
    totalCost := 0;
    while totalCost < budget
      invariant GreedyRun(p, budget, picks) && CostOf(picks) == totalCost
      invariant chosen == Indices(picks)
      invariant Tracks(p, LinesOf(picks))
      invariant fresh(queue) && QueueInv(p, LinesOf(picks), queue.items, p.Remaining(LinesOf(picks)))
      invariant prevSubmodValue == p.Value(LinesOf(picks))
      decreases budget - totalCost
    {
      if |queue.items| == 1 {
        ghost var items := queue.items;
        var last := queue.TakeTop();
        LastOne(p, LinesOf(picks), items, last);
        chosen := chosen + [last.sentence.index];
        SnocFacts(p, budget, picks, last.sentence);
        picks := picks + [last.sentence];
      } else if |queue.items| == 0 {
        NothingQueued(p, LinesOf(picks), queue.items);
      }
      if |queue.items| == 0 {
        assert p.Remaining(LinesOf(picks)) == {};
        break;
      }
      var e, funcValue, updates := PickBest(p, queue, prevSubmodValue, LinesOf(picks));
      SnocFacts(p, budget, picks, e.sentence);
      prevSubmodValue := funcValue;
      totalCost := totalCost + e.sentence.length;
      UpdatesAreFeatures(p, LinesOf(picks), e.sentence, updates);
      UpdateFeatures(p, updates, LinesOf(picks), e.sentence);
      GrowKeeps(p, LinesOf(picks), queue.items, p.Remaining(LinesOf(picks)) - {e.sentence}, e.sentence);
      chosen := chosen + [e.sentence.index];
      picks := picks + [e.sentence];
    }
    Overshoot(p, budget, picks);
  }
}
