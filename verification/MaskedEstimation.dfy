/** Masks, and estimation restricted to them. */
module MaskedEstimation {
  import opened Tries
  import opened KneserNey
  import opened BackoffModel

  /** Probability masks for orders 0 .. N, backoff-weight masks for 0 .. N-1 and discount masks for 1 .. N. */
  datatype Masks = Masks(prob: seq<seq<bool>>, bow: seq<seq<bool>>, disc: seq<seq<bool>>)

  /** The masks have the sizes of the model's tables. */
  ghost predicate Sized(m: Model, prob: seq<seq<bool>>, bow: seq<seq<bool>>)
    requires m.Valid()
  {
    && |prob| == |m.orders| + 1 && |bow| == |m.orders|
    && (forall n | 0 <= n < |prob| :: |prob[n]| == |m.Table(n)|)
    && forall n | 0 <= n < |bow| :: |bow[n]| == |m.Table(n)|
  }

  /** Order n's masks contain what its masked probabilities depend on, and its discounts follow the histories. */
  ghost predicate ClosedAt(m: Model, prob: seq<seq<bool>>, bow: seq<seq<bool>>, disc: seq<bool>, n: nat)
    requires m.Valid() && Sized(m, prob, bow) && 1 <= n <= |m.orders|
  {
    && |disc| == |m.orders[n-1].hists|
    && forall i | 0 <= i < |m.orders[n-1].hists| :: DependsOk(m, prob, bow, disc, n, i)
  }

  ghost predicate DependsOk(m: Model, prob: seq<seq<bool>>, bow: seq<seq<bool>>, disc: seq<bool>, n: nat, i: nat)
    requires m.Valid() && Sized(m, prob, bow) && 1 <= n <= |m.orders|
    requires i < |m.orders[n-1].hists| == |disc|
  {
    EntryAt(m, n, i);
    var o := m.orders[n-1];
    && (prob[n][i] ==> prob[n-1][o.backoffs[i]] && bow[n-1][o.hists[i]])
    && disc[i] == bow[n-1][o.hists[i]]
  }

  lemma EntryAt(m: Model, n: nat, i: nat)
    requires m.Valid() && 1 <= n <= |m.orders| && i < |m.orders[n-1].hists|
    ensures m.orders[n-1].Valid() && |m.orders[n-1].backoffs| == |m.orders[n-1].hists|
    ensures m.orders[n-1].EntryOk(i) && m.orders[n-1].numLower == |m.Table(n - 1)|
    ensures |m.Table(n)| == |m.orders[n-1].hists|
  {
    m.OrderFacts(n);
    m.orders[n-1].Facts(i);
  }

  lemma SizesAt(m: Model, n: nat)
    requires m.Valid() && 1 <= n <= |m.orders|
    ensures m.orders[n-1].Valid() && m.orders[n-1].numLower == |m.Table(n - 1)|
    ensures |m.Table(n)| == |m.orders[n-1].hists| == |m.orders[n-1].backoffs|
  {
    m.OrderFacts(n);
  }

  ghost predicate Closed(m: Model, masks: Masks)
    requires m.Valid()
  {
    && Sized(m, masks.prob, masks.bow) && |masks.disc| == |m.orders| + 1
    && forall n | 1 <= n <= |m.orders| :: ClosedAt(m, masks.prob, masks.bow, masks.disc[n], n)
  }

  ghost predicate Within(a: seq<seq<bool>>, b: seq<seq<bool>>) {
    |a| == |b| && forall n | 0 <= n < |a| ::
      |a[n]| == |b[n]| && forall i | 0 <= i < |a[n]| :: a[n][i] ==> b[n][i]
  }

  lemma WithinStep(a: seq<seq<bool>>, b: seq<seq<bool>>, k: nat, row: seq<bool>)
    requires Within(a, b) && k < |b| && |row| == |b[k]|
    requires forall i | 0 <= i < |row| :: b[k][i] ==> row[i]
    ensures Within(a, b[k := row])
  {
  }

  /** Lowering the masks of order k - 1 leaves the orders above k closed. */
  lemma StillClosed(m: Model, prob: seq<seq<bool>>, bow: seq<seq<bool>>, disc: seq<bool>, n: nat, k: nat,
                    p: seq<bool>, b: seq<bool>)
    requires m.Valid() && Sized(m, prob, bow) && 1 <= k < n <= |m.orders|
    requires |p| == |prob[k-1]| && |b| == |bow[k-1]| && ClosedAt(m, prob, bow, disc, n)
    ensures Sized(m, prob[k-1 := p], bow[k-1 := b]) && ClosedAt(m, prob[k-1 := p], bow[k-1 := b], disc, n)
  {
    hide Model.Valid, Model.Table;
    var prob', bow' := prob[k-1 := p], bow[k-1 := b];
    forall i | 0 <= i < |m.orders[n-1].hists| ensures DependsOk(m, prob', bow', disc, n, i) {
      assert DependsOk(m, prob, bow, disc, n, i);
    }
  }

  /** Order k is closed once its dependencies are marked. */
  lemma NowClosed(m: Model, prob: seq<seq<bool>>, bow: seq<seq<bool>>, disc: seq<bool>, k: nat,
                  p: seq<bool>, b: seq<bool>)
    requires m.Valid() && Sized(m, prob, bow) && 1 <= k <= |m.orders|
    requires |p| == |prob[k-1]| && |b| == |bow[k-1]|
    requires var o := m.orders[k-1];
             && |disc| == |o.hists| == |o.backoffs| == |prob[k]|
             && (forall j | 0 <= j < |p| && Marked(prob[k], o.backoffs, j, |o.hists|) :: p[j])
             && (forall h | 0 <= h < |b| && Marked(prob[k], o.hists, h, |o.hists|) :: b[h])
             && forall i | 0 <= i < |o.hists| :: o.hists[i] < |b| && disc[i] == b[o.hists[i]]
    ensures Sized(m, prob[k-1 := p], bow[k-1 := b]) && ClosedAt(m, prob[k-1 := p], bow[k-1 := b], disc, k)
  {
    hide Model.Valid, Model.Table;
    var o := m.orders[k-1];
    var prob', bow' := prob[k-1 := p], bow[k-1 := b];
    forall i | 0 <= i < |o.hists| ensures DependsOk(m, prob', bow', disc, k, i) {
      EntryAt(m, k, i);
      if prob[k][i] {
        assert Marked(prob[k], o.backoffs, o.backoffs[i], |o.hists|);
        assert Marked(prob[k], o.hists, o.hists[i], |o.hists|);
      }
    }
  }

  /** Copies the requested masks and lets every order, from the highest down, mark what it depends on. */
  method GetMask(m: Model, probMaskVectors: seq<seq<bool>>, bowMaskVectors: seq<seq<bool>>) returns (masks: Masks)
    requires m.Valid() && Sized(m, probMaskVectors, bowMaskVectors)
    ensures Closed(m, masks)
    ensures Within(probMaskVectors, masks.prob) && Within(bowMaskVectors, masks.bow)
  {
    hide Model.Valid, Model.Table, ClosedAt, Order.Valid, Within;
    var prob, bow := probMaskVectors, bowMaskVectors;
    var disc: seq<seq<bool>> := seq(|m.orders| + 1, _ => []);
    Reflexive(prob);
    Reflexive(bow);
    var n := |m.orders|;
    while n > 0
      invariant 0 <= n <= |m.orders| < |disc| == |m.orders| + 1
      invariant Sized(m, prob, bow) && Within(probMaskVectors, prob) && Within(bowMaskVectors, bow)
      invariant forall k | n < k <= |m.orders| :: ClosedAt(m, prob, bow, disc[k], k)
    {
      SizesAt(m, n);
      var probMask := ArrayOf(prob[n]);
      var boProbMask := ArrayOf(prob[n-1]);
      var boBowMask := ArrayOf(bow[n-1]);
      var discMask := UpdateMask(m.orders[n-1], probMask, boProbMask, boBowMask);
      ghost var was, wasBow := prob, bow;
      WithinStep(probMaskVectors, prob, n - 1, boProbMask[..]);
      WithinStep(bowMaskVectors, bow, n - 1, boBowMask[..]);
      prob, bow := prob[n-1 := boProbMask[..]], bow[n-1 := boBowMask[..]];
      assert probMask[..] == was[n];
      NowClosed(m, was, wasBow, discMask[..], n, boProbMask[..], boBowMask[..]);
      forall k | n < k <= |m.orders| ensures ClosedAt(m, prob, bow, disc[k], k) {
        StillClosed(m, was, wasBow, disc[k], k, n, boProbMask[..], boBowMask[..]);
      }
      disc := disc[n := discMask[..]];
      n := n - 1;
    }
    masks := Masks(prob, bow, disc);
  }

  lemma Reflexive(a: seq<seq<bool>>)
    ensures Within(a, a)
  {
  }

  method ArrayOf<T(0)>(s: seq<T>) returns (a: array<T>)
    ensures fresh(a) && a[..] == s
  {
    a := new T[|s|];
    for i := 0 to |s|
      invariant forall j | 0 <= j < i :: a[j] == s[j]
    {
      a[i] := s[i];
    }
  }

  /** Vectors of the right sizes, with only the zeroth-order probability set. */
  function Fresh(m: Model): (t: Tables)
    requires m.Valid()
    ensures |t.probs| == |m.orders| + 1 && |t.bows| == |m.orders|
    ensures forall n | 0 <= n < |t.probs| :: |t.probs[n]| == |m.Table(n)|
    ensures forall n | 0 <= n < |t.bows| :: |t.bows[n]| == |m.Table(n)|
    ensures t.probs[0] == m.Table(0)
  {
    var N := |m.trie.levels|;
    Tables(seq(N + 1, n requires 0 <= n <= N => if n == 0 then [m.p0] else seq(|m.trie.levels[n-1].hists|, _ => 0.0)),
           seq(N, n requires 0 <= n < N => if n == 0 then [0.0] else seq(|m.trie.levels[n-1].hists|, _ => 0.0)))
  }

  /** The language model: probability vectors for orders 0 .. N and backoff weights for 0 .. N - 1. */
  class NgramLM {
    const model: Model
    var probVectors: seq<seq<real>>
    var bowVectors: seq<seq<real>>

    constructor (model: Model)
      requires model.Valid()
      ensures this.model == model && Shaped()
    {
      this.model := model;
      probVectors, bowVectors := Fresh(model).probs, Fresh(model).bows;
    }

    /** Vector sizes fit the model, and the zeroth-order probability is in place; other contents are arbitrary. */
    ghost predicate Shaped()
      reads this
    {
      && model.Valid()
      && |probVectors| == |model.orders| + 1 && |bowVectors| == |model.orders|
      && (forall n | 0 <= n < |probVectors| :: |probVectors[n]| == |model.Table(n)|)
      && (forall n | 0 <= n < |bowVectors| :: |bowVectors[n]| == |model.Table(n)|)
      && probVectors[0] == model.Table(0)
    }

    /** Orders below n hold their tables, and the backoff weights of orders below n are right. */
    ghost predicate Done(n: nat)
      requires Shaped() && n <= |model.orders|
      reads this
    {
      && (forall k | 0 <= k <= n :: probVectors[k] == model.Table(k))
      && forall k | 0 <= k < n :: BowsRight(model, bowVectors[k], k)
    }

    /** Estimates every order from the lowest up, whatever the vectors held before. */
    method Estimate()
      requires Shaped()
      modifies this
      ensures Shaped() && Done(|model.orders|)
    {
      hide Model.Valid, Model.Table, Order.Valid, BowsRight;
      var n := 1;
      while n <= |model.orders|
        invariant 1 <= n <= |model.orders| + 1 && Shaped() && Done(n - 1)
      {
        var probs, bows := EstimateOrder(model, n, probVectors[n-1], probVectors[n], bowVectors[n-1]);
        probVectors, bowVectors := probVectors[n := probs], bowVectors[n-1 := bows];
        n := n + 1;
      }
    }

    /** Orders up to n are right wherever the masks are set. */
    ghost predicate DoneMasked(masks: Masks, n: nat)
      requires Shaped() && Closed(model, masks) && n <= |model.orders|
      reads this
    {
      && (forall k | 0 <= k <= n :: Agrees(masks.prob[k], probVectors[k], model.Table(k)))
      && forall k | 0 <= k < n :: BowsAgree(model, masks.bow[k], bowVectors[k], k)
    }

    /** The same under masks: right at every masked position, whatever stale data sits elsewhere. */
    method EstimateMasked(masks: Masks)
      requires Shaped() && Closed(model, masks)
      modifies this
      ensures Shaped() && DoneMasked(masks, |model.orders|)
    {
      hide Model.Valid, Model.Table, Order.Valid, ClosedAt, Agrees, BowsAgree;
      AgreesWithItself(masks.prob[0], model.Table(0));
      var n := 1;
      while n <= |model.orders|
        invariant 1 <= n <= |model.orders| + 1 && Shaped() && DoneMasked(masks, n - 1)
      {
        var probs, bows := EstimateOrderMasked(model, masks, n, probVectors[n-1], probVectors[n], bowVectors[n-1]);
        probVectors, bowVectors := probVectors[n := probs], bowVectors[n-1 := bows];
        n := n + 1;
      }
    }
  }

  ghost predicate BowsRight(m: Model, bows: seq<real>, k: nat)
    requires m.Valid() && k < |m.orders|
  {
    m.OrderFacts(k + 1);
    |bows| == |m.Table(k)| && forall h | 0 <= h < |bows| :: bows[h] == m.orders[k].Bow(h)
  }

  ghost predicate BowsAgree(m: Model, mask: seq<bool>, bows: seq<real>, k: nat)
    requires m.Valid() && k < |m.orders|
  {
    m.OrderFacts(k + 1);
    |bows| == |mask| && forall h | 0 <= h < |bows| && mask[h] :: bows[h] == m.orders[k].Bow(h)
  }

  ghost predicate Agrees(mask: seq<bool>, a: seq<real>, b: seq<real>) {
    |a| == |b| == |mask| && forall i | 0 <= i < |a| && mask[i] :: a[i] == b[i]
  }

  lemma AgreesWithItself(mask: seq<bool>, a: seq<real>)
    requires |mask| == |a|
    ensures Agrees(mask, a, a)
  {
  }

  /** One order in full, from the table of the order below. */
  method EstimateOrder(m: Model, n: nat, lower: seq<real>, staleProbs: seq<real>, staleBows: seq<real>)
    returns (probs: seq<real>, bows: seq<real>)
    requires m.Valid() && 1 <= n <= |m.orders| && lower == m.Table(n - 1)
    requires |staleProbs| == |m.Table(n)| && |staleBows| == |m.Table(n - 1)|
    ensures probs == m.Table(n) && BowsRight(m, bows, n - 1) && |bows| == |m.Table(n - 1)|
  {
    hide Model.Valid, Model.Table, Order.Valid, Order.Prob, Order.Bow, Order.InvHistCount;
    SizesAt(m, n);
    var o := m.orders[n-1];
    var inv := InverseHistCounts(o);
    var lowerArray := ArrayOf(lower);
    var probArray := ArrayOf(staleProbs);
    var bowArray := ArrayOf(staleBows);
    KneserNey.Estimate(o, inv, lowerArray, probArray, bowArray);
    probs, bows := probArray[..], bowArray[..];
    forall i | 0 <= i < |probs| ensures probs[i] == m.Table(n)[i] {
      m.TableEntry(n, i);
    }
  }

  lemma DependsAt(m: Model, masks: Masks, n: nat, i: nat)
    requires m.Valid() && Closed(m, masks) && 1 <= n <= |m.orders| && i < |m.orders[n-1].hists|
    ensures |masks.disc[n]| == |m.orders[n-1].hists|
    ensures DependsOk(m, masks.prob, masks.bow, masks.disc[n], n, i)
  {
    assert ClosedAt(m, masks.prob, masks.bow, masks.disc[n], n);
    hide Model.Valid, Model.Table;
  }

  lemma DiscSize(m: Model, masks: Masks, n: nat)
    requires m.Valid() && Closed(m, masks) && 1 <= n <= |m.orders|
    ensures |masks.disc[n]| == |m.orders[n-1].hists|
  {
    assert ClosedAt(m, masks.prob, masks.bow, masks.disc[n], n);
    hide Model.Valid, Model.Table;
  }

  /** A probability reads the lower order only at its backoff. */
  lemma ProbReadsBackoff(o: Order, i: nat, a: seq<real>, b: seq<real>)
    requires o.Valid() && i < |o.hists| == |o.backoffs| && |a| == |b| == o.numLower && o.backoffs[i] < o.numLower
    requires a[o.backoffs[i]] == b[o.backoffs[i]]
    ensures o.Prob(i, a) == o.Prob(i, b)
  {
  }

  /** One order under masks, from a lower order that is right where masked. */
  method EstimateOrderMasked(m: Model, masks: Masks, n: nat, lower: seq<real>, staleProbs: seq<real>,
                             staleBows: seq<real>)
    returns (probs: seq<real>, bows: seq<real>)
    requires m.Valid() && 1 <= n <= |m.orders| && Closed(m, masks)
    requires Agrees(masks.prob[n-1], lower, m.Table(n - 1))
    requires |staleProbs| == |m.Table(n)| && |staleBows| == |m.Table(n - 1)|
    ensures Agrees(masks.prob[n], probs, m.Table(n)) && BowsAgree(m, masks.bow[n-1], bows, n - 1)
    ensures |bows| == |m.Table(n - 1)| && |probs| == |m.Table(n)|
  {
    hide Model.Valid, Model.Table, Order.Valid, Order.Prob, Order.Bow, Order.InvHistCount, ClosedAt;
    SizesAt(m, n);
    DiscSize(m, masks, n);
    var o := m.orders[n-1];
    var inv := InverseHistCounts(o);
    var lowerArray := ArrayOf(lower);
    var probArray := ArrayOf(staleProbs);
    var bowArray := ArrayOf(staleBows);
    forall i | 0 <= i < |o.hists|
      ensures o.hists[i] < o.numLower && masks.disc[n][i] == masks.bow[n-1][o.hists[i]]
        && (masks.prob[n][i] ==> masks.bow[n-1][o.hists[i]])
    {
      DependsAt(m, masks, n, i);
      EntryAt(m, n, i);
    }
    KneserNey.EstimateMasked(o, inv, lowerArray, masks.prob[n], masks.bow[n-1], masks.disc[n], probArray, bowArray);
    probs, bows := probArray[..], bowArray[..];
    forall i | 0 <= i < |probs| && masks.prob[n][i] ensures probs[i] == m.Table(n)[i] {
      DependsAt(m, masks, n, i);
      EntryAt(m, n, i);
      ProbReadsBackoff(o, i, lower, m.Table(n - 1));
      m.TableEntry(n, i);
    }
  }
}
