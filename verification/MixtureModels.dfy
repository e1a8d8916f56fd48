/** The interpolated model as a whole. */
module MixtureModels {
  // Masks are passed down to the components, the components are estimated under them, and then the mixture is: at
  // every order every masked value is that of the full estimate.

  import opened Tries
  import opened BackoffModel
  import Bins
  import Interpolation
  import MaskedEstimation

  type Mixture = Interpolation.Mixture

  /** The mixture's own masks, and those of each component. */
  datatype Masks = Masks(prob: seq<seq<bool>>, bow: seq<seq<bool>>, lms: seq<MaskedEstimation.Masks>)

  class InterpolatedNgramLM {
    const g: Trie
    const lms: seq<MaskedEstimation.NgramLM>
    const shapes: seq<Mixture>
    var probVectors: seq<seq<real>>
    var bowVectors: seq<seq<real>>

    constructor (g: Trie, lms: seq<MaskedEstimation.NgramLM>, shapes: seq<Mixture>)
      ensures this.g == g && this.lms == lms && this.shapes == shapes
      ensures |probVectors| == |g.levels| + 1 && |bowVectors| == |g.levels|
      ensures forall n | 0 <= n < |bowVectors| :: |bowVectors[n]| == g.Size(n)
    {
      this.g, this.lms, this.shapes := g, lms, shapes;
      probVectors := seq(|g.levels| + 1, n requires 0 <= n <= |g.levels| => if n == 0 then [0.0] else []);
      bowVectors := seq(|g.levels|, n requires 0 <= n < |g.levels| =>
                          if n == 0 then [0.0] else seq(|g.levels[n-1].hists|, _ => 0.0));
    }

    /** Component l stands on the mixture's trie. */
    ghost predicate Fits(l: nat)
      requires l < |lms|
    {
      lms[l].model.Valid() && lms[l].model.trie == g && |lms[l].model.orders| == |g.levels|
    }

    ghost predicate AllFit() {
      |shapes| == |g.levels| && forall l | 0 <= l < |lms| :: Fits(l)
    }

    ghost function FullTableOf(l: nat, n: nat): (t: seq<real>)
      requires AllFit() && l < |lms| && n <= |g.levels|
      ensures |t| == g.Size(n)
    {
      assert Fits(l);
      lms[l].model.Table(n)
    }

    /** Order n with every component's full table. */
    ghost function FullAt(n: nat): Mixture
      requires AllFit() && 1 <= n <= |g.levels|
    {
      shapes[n-1].(probs := seq(|lms|, l requires 0 <= l < |lms| => FullTableOf(l, n)))
    }

    ghost function Full(): (full: seq<Mixture>)
      requires AllFit()
      ensures |full| == |g.levels|
    {
      seq(|g.levels|, k requires 0 <= k < |g.levels| => FullAt(k + 1))
    }

    /** The components are different and stand on one trie, and there are weights for every order. */
    ghost predicate Ready() {
      && g.Valid() && AllFit() && Interpolation.Mixes(g, Full())
      && forall l, k | 0 <= l < |lms| && 0 <= k < |lms| && lms[l] == lms[k] :: l == k
    }

    ghost predicate Shaped()
      reads this, lms
    {
      && Ready() && (forall l | 0 <= l < |lms| :: lms[l].Shaped())
      && |probVectors| == |g.levels| + 1 && |bowVectors| == |g.levels| && probVectors[0] == [0.0]
      && forall n | 0 <= n < |g.levels| :: |bowVectors[n]| == g.Size(n)
    }

    // ---------- masks ----------

    /** Component l's masks contain the mixture's and are closed. */
    ghost predicate PassedDown(masks: Masks, l: nat)
      requires AllFit() && l < |lms|
    {
      assert Fits(l);
      && l < |masks.lms| && MaskedEstimation.Closed(lms[l].model, masks.lms[l])
      && MaskedEstimation.Within(masks.prob, masks.lms[l].prob)
    }

    ghost predicate MasksOk(masks: Masks)
      requires g.Valid() && AllFit()
    {
      && Interpolation.SizedFor(g, masks.prob, |g.levels| + 1) && Interpolation.SizedFor(g, masks.bow, |g.levels|)
      && (forall n | 1 <= n <= |g.levels| :: Interpolation.Covered(g, masks.prob, masks.bow, n))
      && |masks.lms| == |lms| && forall l | 0 <= l < |lms| :: PassedDown(masks, l)
    }

    /** Extends the masks asked for by all that their values are computed from, in the mixture and in every
        component. */
    method GetMask(probMaskVectors: seq<seq<bool>>, bowMaskVectors: seq<seq<bool>>) returns (masks: Masks)
      requires Ready()
      requires Interpolation.SizedFor(g, probMaskVectors, |g.levels| + 1)
      requires Interpolation.SizedFor(g, bowMaskVectors, |g.levels|)
      ensures MasksOk(masks) && masks.bow == bowMaskVectors
      ensures forall k | 0 <= k <= |g.levels| :: Interpolation.RowWithin(probMaskVectors[k], masks.prob[k])
    {
      hide Trie.Valid, Model.Valid, Interpolation.Covered, MaskedEstimation.Closed, MaskedEstimation.Within, Interpolation.Mixes;
      var prob := Interpolation.GetMask(g, probMaskVectors, bowMaskVectors);
      var below: seq<MaskedEstimation.Masks> := [];
      for l := 0 to |lms|
        invariant |below| == l && forall k | 0 <= k < l :: PassedDown(Masks(prob, bowMaskVectors, below), k)
      {
        assert Fits(l);
        FitsSizes(l, prob, bowMaskVectors);
        var more := MaskedEstimation.GetMask(lms[l].model, prob, bowMaskVectors);
        forall k | 0 <= k < l ensures PassedDown(Masks(prob, bowMaskVectors, below + [more]), k) {
          assert PassedDown(Masks(prob, bowMaskVectors, below), k);
        }
        below := below + [more];
      }
      masks := Masks(prob, bowMaskVectors, below);
    }

    lemma FitsSizes(l: nat, prob: seq<seq<bool>>, bow: seq<seq<bool>>)
      requires g.Valid() && l < |lms| && Fits(l)
      requires Interpolation.SizedFor(g, prob, |g.levels| + 1) && Interpolation.SizedFor(g, bow, |g.levels|)
      ensures MaskedEstimation.Sized(lms[l].model, prob, bow)
    {
      hide Trie.Valid, Model.Valid, Model.Table;
    }

    // ---------- estimation ----------

    /** Component l's tables are right wherever its masks are set. */
    ghost predicate LmDone(masks: Masks, l: nat)
      requires AllFit() && l < |lms| && PassedDown(masks, l)
      reads if l < |lms| then {lms[l]} else {}
    {
      assert Fits(l);
      lms[l].Shaped() && lms[l].DoneMasked(masks.lms[l], |g.levels|)
    }

    /** Masked estimation of the components, then of the mixture: every masked probability and every masked backoff
        weight of every order is the one full estimation gives, whatever the vectors held before. */
    method EstimateMasked(masks: Masks, undefined: real)
      requires Shaped() && MasksOk(masks)
      modifies this`probVectors, this`bowVectors, lms
      ensures Shaped()
      ensures forall n | 0 <= n <= |g.levels| :: ProbsRight(masks, n, probVectors[n])
      ensures forall n | 0 <= n < |g.levels| :: BowsRight(masks, n, old(bowVectors[n]), bowVectors[n], undefined)
    {
      hide Trie.Valid, Model.Valid, PassedDown, Interpolation.Covered, Interpolation.Mixes, MaskedEstimation.NgramLM.Shaped,
           LmDone, ProbsRight, BowsRight;
      EstimateComponents(masks);
      Mix(masks, undefined);
    }

    /** Full estimation: every vector holds its full table. */
    method Estimate(undefined: real)
      requires Shaped()
      modifies this`probVectors, this`bowVectors, lms
      ensures Shaped() && Estimated(undefined)
    {
      hide Trie.Valid, Model.Valid, Mixture.Valid, PassedDown, Interpolation.Covered, MaskedEstimation.NgramLM.Shaped,
           MaskedEstimation.NgramLM.Done, LmDone, ProbsRight, BowsRight, Interpolation.FullBow, AllSet, MasksOk;
      for l := 0 to |lms|
        modifies lms
        invariant Shaped() && forall k | 0 <= k < l :: LmFull(k)
      {
        assert Fits(l);
        lms[l].Estimate();
      }
      var all := AllSet();
      AllSetOk();
      forall l | 0 <= l < |lms| ensures PassedDown(all, l) && LmDone(all, l) {
        FullIsDone(l);
      }
      Mix(all, undefined);
      forall n | 0 <= n <= |g.levels| ensures probVectors[n] == Interpolation.FullTable(Full(), n) {
        AllProbsRight(n, probVectors[n]);
      }
      forall n | 0 <= n < |g.levels|
        ensures |bowVectors[n]| == g.Size(n)
          && forall h | 0 <= h < g.Size(n) :: Interpolation.FullBow(g, Full(), n + 1, h, bowVectors[n][h], undefined)
      {
        AllBowsRight(n, old(bowVectors[n]), bowVectors[n], undefined);
      }
    }

    /** Every mask bit set, for n orders from order 0 up. */
    function Ones(n: nat): (rows: seq<seq<bool>>)
      requires n <= |g.levels| + 1
      ensures Interpolation.SizedFor(g, rows, n)
      ensures forall k, i | 0 <= k < n && 0 <= i < |rows[k]| :: rows[k][i]
    {
      seq(n, k requires 0 <= k < n => if k == 0 then [true] else seq(|g.levels[k-1].hists|, _ => true))
    }

    function AllSet(): (masks: Masks) {
      var prob, bow := Ones(|g.levels| + 1), Ones(|g.levels|);
      Masks(prob, bow, seq(|lms|, _ => MaskedEstimation.Masks(prob, bow, prob)))
    }

    lemma AllSetOk()
      requires Ready()
      ensures MasksOk(AllSet())
    {
      hide Trie.Valid, Model.Valid, Interpolation.Mixes;
      var all := AllSet();
      forall n | 1 <= n <= |g.levels| ensures Interpolation.Covered(g, all.prob, all.bow, n) {
        AllCovered(n);
      }
      forall l | 0 <= l < |lms| ensures PassedDown(all, l) {
        AllClosed(l);
      }
    }

    lemma AllCovered(n: nat)
      requires g.Valid() && 1 <= n <= |g.levels|
      ensures Interpolation.Covered(g, AllSet().prob, AllSet().bow, n)
    {
      hide Trie.Valid;
      var bow, own, lower := AllSet().bow[n-1], AllSet().prob[n], AllSet().prob[n-1];
      forall i | 0 <= i < g.Size(n) ensures Interpolation.EntryCovered(g, n, bow, own, lower, i) {
        g.NgramFacts(n, i);
      }
    }

    lemma AllClosed(l: nat)
      requires Ready() && l < |lms|
      ensures PassedDown(AllSet(), l)
    {
      hide Trie.Valid, Model.Valid, Interpolation.Mixes, Model.Table, Ones;
      var all := AllSet();
      assert Fits(l);
      FitsSizes(l, all.prob, all.bow);
      var m, masks := lms[l].model, all.lms[l];
      forall n | 1 <= n <= |m.orders| ensures MaskedEstimation.ClosedAt(m, masks.prob, masks.bow, masks.disc[n], n) {
        MaskedEstimation.SizesAt(m, n);
        forall i | 0 <= i < |m.orders[n-1].hists| ensures MaskedEstimation.DependsOk(m, masks.prob, masks.bow, masks.disc[n], n, i) {
          MaskedEstimation.EntryAt(m, n, i);
        }
      }
    }

    /** Component l has been estimated in full. */
    ghost predicate LmFull(l: nat)
      requires AllFit() && l < |lms|
      reads if l < |lms| then {lms[l]} else {}
    {
      assert Fits(l);
      lms[l].Shaped() && lms[l].Done(|g.levels|)
    }

    lemma FullIsDone(l: nat)
      requires Ready() && l < |lms| && LmFull(l)
      ensures PassedDown(AllSet(), l) && LmDone(AllSet(), l)
    {
      hide Trie.Valid, Model.Valid, Interpolation.Mixes, Model.Table, Ones;
      AllClosed(l);
      assert Fits(l);
      var all, lm := AllSet(), lms[l];
      forall k | 0 <= k <= |g.levels| ensures MaskedEstimation.Agrees(all.prob[k], lm.probVectors[k], lm.model.Table(k)) {
      }
      forall k | 0 <= k < |g.levels| ensures MaskedEstimation.BowsAgree(lm.model, all.bow[k], lm.bowVectors[k], k) {
        lm.model.OrderFacts(k + 1);
        assert MaskedEstimation.BowsRight(lm.model, lm.bowVectors[k], k);
      }
    }

    lemma AllProbsRight(n: nat, row: seq<real>)
      requires Ready() && n <= |g.levels| && ProbsRight(AllSet(), n, row)
      ensures row == Interpolation.FullTable(Full(), n)
    {
      hide Trie.Valid, Model.Valid, Ones;
    }

    lemma AllBowsRight(n: nat, stale: seq<real>, row: seq<real>, undefined: real)
      requires Ready() && n < |g.levels| && BowsRight(AllSet(), n, stale, row, undefined)
      ensures |row| == g.Size(n) && forall h | 0 <= h < g.Size(n) :: Interpolation.FullBow(g, Full(), n + 1, h, row[h], undefined)
    {
      hide Trie.Valid, Model.Valid, Ones, Interpolation.FullBow;
    }

    /** The mixture, order by order: probabilities first, then backoff weights. */
    method Mix(masks: Masks, undefined: real)
      requires Shaped() && MasksOk(masks) && forall l | 0 <= l < |lms| :: LmDone(masks, l)
      modifies this`probVectors, this`bowVectors
      ensures Shaped()
      ensures forall n | 0 <= n <= |g.levels| :: ProbsRight(masks, n, probVectors[n])
      ensures forall n | 0 <= n < |g.levels| :: BowsRight(masks, n, old(bowVectors[n]), bowVectors[n], undefined)
    {
      hide Trie.Valid, Model.Valid, PassedDown, Interpolation.Covered, Interpolation.Mixes,
           MaskedEstimation.NgramLM.Shaped, LmDone, ProbsRight, BowsRight;
      var n := 1;
      ZerothRight(masks);
      while n <= |g.levels|
        modifies this`probVectors
        invariant 1 <= n <= |g.levels| + 1 && Shaped()
        invariant forall l | 0 <= l < |lms| :: LmDone(masks, l)
        invariant forall k | 0 <= k < n :: ProbsRight(masks, k, probVectors[k])
      {
        var row := OrderProbs(masks, n);
        probVectors := probVectors[n := row];
        n := n + 1;
      }
      for o := 0 to |g.levels|
        modifies this`bowVectors
        invariant Shaped()
        invariant forall k | 0 <= k <= |g.levels| :: ProbsRight(masks, k, probVectors[k])
        invariant forall k | o <= k < |g.levels| :: bowVectors[k] == old(bowVectors[k])
        invariant forall k | 0 <= k < o :: BowsRight(masks, k, old(bowVectors[k]), bowVectors[k], undefined)
      {
        var row := OrderBows(masks, o, undefined);
        bowVectors := bowVectors[o := row];
      }
    }

    ghost predicate ProbsRight(masks: Masks, n: nat, row: seq<real>)
      requires Ready() && n <= |g.levels| && n < |masks.prob|
    {
      Interpolation.RightWhere(masks.prob[n], row, Interpolation.FullTable(Full(), n))
    }

    ghost predicate BowsRight(masks: Masks, n: nat, stale: seq<real>, row: seq<real>, undefined: real)
      requires Ready() && n < |g.levels| && n < |masks.bow|
    {
      && |row| == |stale| == |masks.bow[n]| == g.Size(n)
      && forall h | 0 <= h < |row| ::
           if masks.bow[n][h] then Interpolation.FullBow(g, Full(), n + 1, h, row[h], undefined) else row[h] == stale[h]
    }

    lemma ZerothRight(masks: Masks)
      requires Ready() && MasksOk(masks)
      ensures ProbsRight(masks, 0, [0.0])
    {
    }

    method EstimateComponents(masks: Masks)
      requires Shaped() && MasksOk(masks)
      modifies lms
      ensures Shaped() && forall l | 0 <= l < |lms| :: LmDone(masks, l)
    {
      hide Trie.Valid, Model.Valid, MaskedEstimation.Closed, MaskedEstimation.Within, Interpolation.Covered, Interpolation.Mixes,
           MaskedEstimation.NgramLM.Shaped, MaskedEstimation.NgramLM.DoneMasked;
      for l := 0 to |lms|
        modifies lms
        invariant Shaped() && forall k | 0 <= k < l :: LmDone(masks, k)
      {
        assert Fits(l) && PassedDown(masks, l);
        lms[l].EstimateMasked(masks.lms[l]);
      }
    }

    method OrderProbs(masks: Masks, n: nat) returns (row: seq<real>)
      requires Shaped() && MasksOk(masks) && 1 <= n <= |g.levels| && forall l | 0 <= l < |lms| :: LmDone(masks, l)
      ensures ProbsRight(masks, n, row)
    {
      hide Trie.Valid, Model.Valid, MaskedEstimation.Closed, MaskedEstimation.Within, Interpolation.Covered, Interpolation.Mixes,
           MaskedEstimation.NgramLM.DoneMasked, Interpolation.SameWhere;
      var tables: seq<seq<real>> := [];
      for l := 0 to |lms|
        invariant |tables| == l && forall k | 0 <= k < l :: AgreesAt(masks, k, n, tables[k])
      {
        assert Fits(l) && LmDone(masks, l);
        ComponentAgrees(masks, l, n);
        tables := tables + [lms[l].probVectors[n]];
      }
      SameAsFull(masks, n, tables);
      row := Interpolation.EstimateOrder(g, n, shapes[n-1].(probs := tables), Full(), masks.prob[n]);
    }

    /** A component's probabilities of order n, right where the mixture's mask is set. */
    ghost predicate AgreesAt(masks: Masks, l: nat, n: nat, row: seq<real>)
      requires AllFit() && l < |lms| && n <= |g.levels| && n < |masks.prob|
    {
      MaskedEstimation.Agrees(masks.prob[n], row, FullTableOf(l, n))
    }

    lemma ComponentAgrees(masks: Masks, l: nat, n: nat)
      requires Ready() && MasksOk(masks) && l < |lms| && n <= |g.levels| && PassedDown(masks, l) && LmDone(masks, l)
      ensures n < |lms[l].probVectors| && AgreesAt(masks, l, n, lms[l].probVectors[n])
    {
      hide Trie.Valid, Model.Valid, Model.Table, Interpolation.Covered, Interpolation.Mixes;
      assert Fits(l);
    }

    lemma SameAsFull(masks: Masks, n: nat, tables: seq<seq<real>>)
      requires Ready() && MasksOk(masks) && 1 <= n <= |g.levels| && |tables| == |lms|
      requires forall l | 0 <= l < |lms| :: AgreesAt(masks, l, n, tables[l])
      ensures Full()[n-1] == FullAt(n) && FullAt(n).Valid() && Interpolation.SameWhere(masks.prob[n], shapes[n-1].(probs := tables), Full()[n-1])
    {
      hide Trie.Valid, Model.Valid, Interpolation.Covered, PassedDown, AgreesAt, FullTableOf, Mixture.Valid, Mixture.At;
      var m, full := shapes[n-1].(probs := tables), Full()[n-1];
      assert full == FullAt(n);
      SameShape(masks, n, tables);
      forall l, i | 0 <= l < |tables| && 0 <= i < |masks.prob[n]| && masks.prob[n][i] ensures m.At(l, i) == full.At(l, i) {
        SameEntry(masks, n, tables, l, i);
      }
    }

    lemma FullOk(n: nat)
      requires Ready() && 1 <= n <= |g.levels|
      ensures Full()[n-1] == FullAt(n) && FullAt(n).Valid() && FullAt(n).hists == g.levels[n-1].hists
      ensures |FullAt(n).probs| == |lms|
    {
      hide Trie.Valid, Mixture.Valid, FullTableOf;
      var k := n - 1;
      assert Full()[k].Valid() && Full()[k].hists == g.levels[k].hists;
    }

    lemma SameShape(masks: Masks, n: nat, tables: seq<seq<real>>)
      requires Ready() && MasksOk(masks) && 1 <= n <= |g.levels| && |tables| == |lms|
      requires forall l | 0 <= l < |lms| :: AgreesAt(masks, l, n, tables[l])
      ensures shapes[n-1].(probs := tables).Valid() && FullAt(n).Valid()
      ensures |masks.prob[n]| == |shapes[n-1].hists|
    {
      hide Trie.Valid, Model.Valid, Interpolation.Covered, PassedDown, FullTableOf, Interpolation.Mixes, Model.Table;
      FullOk(n);
      var m, full := shapes[n-1].(probs := tables), FullAt(n);
      forall l | 0 <= l < |tables| ensures m.ComponentOk(l) {
        assert full.ComponentOk(l) && AgreesAt(masks, l, n, tables[l]);
      }
      forall x: real ensures m.PositiveAt(x) {
        assert full.PositiveAt(x);
      }
    }

    lemma SameEntry(masks: Masks, n: nat, tables: seq<seq<real>>, l: nat, i: nat)
      requires Ready() && MasksOk(masks) && 1 <= n <= |g.levels| && |tables| == |lms| && l < |lms|
      requires AgreesAt(masks, l, n, tables[l])
      requires shapes[n-1].(probs := tables).Valid() && FullAt(n).Valid()
      requires i < |masks.prob[n]| == |shapes[n-1].hists| && masks.prob[n][i]
      ensures shapes[n-1].(probs := tables).At(l, i) == FullAt(n).At(l, i)
    {
      hide Trie.Valid, Model.Valid, Interpolation.Covered, PassedDown, FullTableOf, Interpolation.Mixes, Model.Table, Mixture.Valid, Mixture.At;
      shapes[n-1].(probs := tables).AtUnfold(l, i);
      FullAt(n).AtUnfold(l, i);
    }

    /** The weights of the histories of order n, from the probabilities of orders n and n + 1. */
    method OrderBows(masks: Masks, n: nat, undefined: real) returns (row: seq<real>)
      requires Shaped() && MasksOk(masks) && n < |g.levels|
      requires forall k | 0 <= k <= |g.levels| :: ProbsRight(masks, k, probVectors[k])
      ensures BowsRight(masks, n, bowVectors[n], row, undefined) && |row| == g.Size(n)
    {
      hide Trie.Valid, Interpolation.Covered, Interpolation.Mixes, Interpolation.FullBow, Interpolation.RightWhere,
           MaskedEstimation.NgramLM.Shaped;
      assert Interpolation.Covered(g, masks.prob, masks.bow, n + 1);
      assert ProbsRight(masks, n + 1, probVectors[n+1]) && ProbsRight(masks, n, probVectors[n]);
      row := Interpolation.EstimateOrderBows(g, n + 1, Full(), masks.prob, masks.bow, probVectors[n+1], probVectors[n],
                                             bowVectors[n], undefined);
    }

    // ---------- normalisation ----------

    ghost function Now(): (t: Tables)
      requires Shaped()
      reads this, lms
    {
      Tables(probVectors, bowVectors)
    }

    /** Every vector is as full estimation leaves it. */
    ghost predicate Estimated(undefined: real)
      requires Shaped()
      reads this, lms
    {
      && (forall n | 0 <= n <= |g.levels| :: probVectors[n] == Interpolation.FullTable(Full(), n))
      && forall n | 0 <= n < |g.levels| ::
           forall h | 0 <= h < g.Size(n) :: Interpolation.FullBow(g, Full(), n + 1, h, bowVectors[n][h], undefined)
    }

    lemma EstimatedFits(undefined: real)
      requires Shaped() && Estimated(undefined)
      ensures g.Fits(Now())
    {
      hide Trie.Valid, Model.Valid, Mixture.Valid, Interpolation.FullBow;
      forall n | 0 <= n <= |g.levels| ensures |probVectors[n]| == g.Size(n) {
        if n > 0 {
          FullOk(n);
        }
      }
    }

    /** Component l's unigrams sum to one, as those of a model estimated from a corpus do. */
    ghost predicate UnigramsNormalised(l: nat)
      requires l < |lms|
    {
      lms[l].model.Valid() && |lms[l].model.orders| > 0 && lms[l].model.Mass(1, 0) == 1.0
    }

    /** A component's unigrams hold everything. */
    lemma ComponentHolds(l: nat)
      requires Ready() && l < |lms| && lms[l].model.Valid() && |lms[l].model.orders| > 0 && lms[l].model.Mass(1, 0) == 1.0
      ensures FullAt(1).Valid() && l < |FullAt(1).probs| && FullAt(1).HeldBy(l, 0) == 1.0
    {
      hide Trie.Valid, Model.Valid, Mixture.Valid, Bins.BinSum, Trie.Mass, Model.AllTables;
      assert Fits(l);
      FullOk(1);
      var m := lms[l].model;
      m.TrieOk();
      g.UnigramMass(m.AllTables());
      FullAt(1).ComponentFacts(l);
    }

    /** The mixture's unigrams hold everything if the components' do. */
    lemma UnigramsHold(undefined: real)
      requires Shaped() && Estimated(undefined) && |g.levels| > 0 && |lms| > 0
      requires forall l | 0 <= l < |lms| :: UnigramsNormalised(l)
      ensures g.Fits(Now()) && Interpolation.Numerator(g, Now(), 1, 0) == 1.0
    {
      hide Trie.Valid, Model.Valid, Mixture.Valid, Model.Mass, Bins.BinSum, Mixture.Probs, Mixture.HeldBy, FullAt, Interpolation.FullBow;
      EstimatedFits(undefined);
      FullOk(1);
      var full := FullAt(1);
      forall l | 0 <= l < |full.probs| ensures full.HeldBy(l, 0) == 1.0 {
        assert UnigramsNormalised(l);
        ComponentHolds(l);
      }
      RootFits();
      full.MeanOfOnes(0);
      assert probVectors[1] == Interpolation.FullTable(Full(), 1) == full.Probs();
    }

    lemma RootFits()
      requires Ready() && |g.levels| > 0
      ensures FullAt(1).numLower == 1
    {
      hide Trie.Valid, Model.Valid, Mixture.Valid, FullTableOf;
      var k := 0;
      assert Full()[k].numLower == g.Size(k);
    }

    /** What full estimation leaves is normalised after every history exactly if, wherever the shorter history gives
        everything to the words stored after a history, these hold everything. */
    lemma MixtureNormalised(undefined: real)
      requires Shaped() && Estimated(undefined) && |g.levels| > 0 && |lms| > 0
      requires forall l | 0 <= l < |lms| :: UnigramsNormalised(l)
      ensures g.Fits(Now())
      ensures Interpolation.AllNormalised(g, Now())
         <==> forall m, k | 2 <= m <= |g.levels| && 0 <= k < g.Size(m - 1) :: Interpolation.NothingLeft(g, Now(), m, k)
    {
      hide Trie.Valid, Model.Valid, Mixture.Valid, UnigramsNormalised, Interpolation.NothingLeft, Interpolation.Numerator,
           Interpolation.DividedAt, Interpolation.FullBow, Interpolation.AllNormalised, Trie.Fits;
      UnigramsHold(undefined);
      forall m, k | 2 <= m <= |g.levels| && 0 <= k < g.Size(m - 1) ensures Interpolation.DividedAt(g, Now(), m, k, undefined) {
        BowDivided(undefined, m, k);
      }
      Interpolation.MixtureNormalisedExactly(g, Now(), undefined);
    }

    lemma BowDivided(undefined: real, m: nat, k: nat)
      requires Shaped() && Estimated(undefined) && g.Fits(Now()) && 2 <= m <= |g.levels| && k < g.Size(m - 1)
      ensures Interpolation.DividedAt(g, Now(), m, k, undefined)
    {
      hide Trie.Valid, Model.Valid, Mixture.Valid, Bins.BinSum, Interpolation.Divided, Mixture.Probs, FullAt;
      FullOk(m);
      var n := m - 1;
      assert Interpolation.FullBow(g, Full(), n + 1, k, bowVectors[n][k], undefined);
      assert probVectors[m] == Interpolation.FullTable(Full(), m) && probVectors[n] == Interpolation.FullTable(Full(), n);
      assert Interpolation.FullLower(g, Full(), m) == g.Lower(Now(), m);
    }
  }
}
