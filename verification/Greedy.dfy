/** Greedy selection and its guarantee. */
module Greedy {
  // Plain greedy selection is the specification. Every finished run of it is worth at least (1 - 1/e) of any set
  // of sentences the budget can pay for.

  import opened Reals
  import opened Concave
  import opened Objective

  ghost function LinesOf(picks: seq<Sentence>): set<nat> {
    set x | x in picks :: x.index
  }

  ghost function CostOf(picks: seq<Sentence>): nat {
    if picks == [] then 0 else CostOf(picks[..|picks|-1]) + picks[|picks|-1].length
  }

  /** x is an available sentence of greatest gain per unit of cost. */
  ghost predicate GreedyPick(p: Problem, chosen: set<nat>, x: Sentence)
    requires p.Valid()
  {
    && x in p.Remaining(chosen)
    && forall y | y in p.Remaining(chosen) :: p.Density(chosen, y) <= p.Density(chosen, x)
  }

  /** Every pick was made within the budget and was a greedy one. */
  ghost predicate GreedyRun(p: Problem, budget: nat, picks: seq<Sentence>)
    requires p.Valid()
  {
    picks != [] ==>
      var before := picks[..|picks|-1];
      && GreedyRun(p, budget, before)
      && CostOf(before) < budget
      && GreedyPick(p, LinesOf(before), picks[|picks|-1])
  }

  /** The run may stop: the budget is spent or nothing is left. */
  ghost predicate Finished(p: Problem, budget: nat, picks: seq<Sentence>) {
    CostOf(picks) >= budget || p.Remaining(LinesOf(picks)) == {}
  }

  // ---------- one pick ----------

  ghost function FirstLines(p: Problem, lines: set<nat>, n: nat): set<nat>
    requires n <= |p.corpus|
  {
    if n == 0 then {}
    else FirstLines(p, lines, n - 1) + if p.corpus[n-1].index in lines then {p.corpus[n-1].index} else {}
  }

  lemma {:induction false} FirstLinesMember(p: Problem, lines: set<nat>, n: nat, i: nat)
    requires i < n <= |p.corpus| && p.corpus[i].index in lines
    ensures p.corpus[i].index in FirstLines(p, lines, n)
  {
    if i < n - 1 {
      FirstLinesMember(p, lines, n - 1, i);
    }
  }

  lemma FirstLinesAll(p: Problem, lines: set<nat>)
    requires lines <= p.Lines()
    ensures lines <= FirstLines(p, lines, |p.corpus|)
  {
    forall l | l in lines ensures l in FirstLines(p, lines, |p.corpus|) {
      var x :| x in p.corpus && x.index == l;
      var i :| 0 <= i < |p.corpus| && p.corpus[i] == x;
      FirstLinesMember(p, lines, |p.corpus|, i);
    }
  }

  lemma DensityNonNegative(p: Problem, chosen: set<nat>, x: Sentence)
    requires p.Valid() && x in p.corpus
    ensures p.Density(chosen, x) >= 0.0
    ensures p.Gain(chosen, x) == p.Density(chosen, x) * x.length as real
    ensures p.Value(chosen + {x.index}) == p.Value(chosen) + p.Density(chosen, x) * x.length as real
  {
    assert WellFormed(p.Features(), x);
    p.ValueMonotone(chosen, chosen + {x.index});
    ScaledQuotient(p.Gain(chosen, x), x.length as real);
  }

  lemma ScaledQuotient(g: real, c: real)
    requires 0.0 <= g && 0.0 < c
    ensures 0.0 <= g / c && g == g / c * c
  {
  }

  lemma ScaleMonotone(a: real, b: real, k: real)
    requires a <= b && 0.0 <= k
    ensures a * k <= b * k
  {
    ProductNonNegative(b - a, k);
  }

  /** No available sentence gains more than d per unit of cost. */
  ghost predicate DensityBound(p: Problem, chosen: set<nat>, d: real)
    requires p.Valid()
  {
    d >= 0.0 && forall y | y in p.Remaining(chosen) :: p.Gain(chosen, y) <= d * y.length as real
  }

  lemma GreedyPickBounds(p: Problem, chosen: set<nat>, x: Sentence)
    requires p.Valid() && GreedyPick(p, chosen, x)
    ensures x in p.corpus && DensityBound(p, chosen, p.Density(chosen, x)) && p.Density(chosen, x) >= 0.0
    ensures p.Value(chosen + {x.index}) == p.Value(chosen) + p.Density(chosen, x) * x.length as real
  {
    hide Problem.Valid, Problem.Gain, Problem.Density, Problem.Value;
    DensityNonNegative(p, chosen, x);
    forall y | y in p.Remaining(chosen)
      ensures p.Gain(chosen, y) <= p.Density(chosen, x) * y.length as real
    {
      DensityNonNegative(p, chosen, y);
      ScaleMonotone(p.Density(chosen, y), p.Density(chosen, x), y.length as real);
    }
  }

  lemma ProductMonotone(a: real, a': real, b: real, b': real)
    requires 0.0 <= a <= a' && 0.0 <= b <= b'
    ensures a * b <= a' * b'
  {
    ScaleMonotone(a, a', b);
    ScaleMonotone(b, b', a');
    assert a' * b <= a' * b';
  }

  /** Covering the first n sentences of a set costs at most the best density times their cost. */
  lemma {:induction false} CoverBound(p: Problem, chosen: set<nat>, d: real, lines: set<nat>, n: nat)
    requires p.Valid() && DensityBound(p, chosen, d) && n <= |p.corpus|
    ensures p.Value(chosen + FirstLines(p, lines, n)) <= p.Value(chosen) + d * p.Cost(lines, n) as real
  {
    hide Problem.Valid, Problem.Value, DensityBound;
    if n == 0 {
      assert chosen + {} == chosen;
    } else {
      CoverBound(p, chosen, d, lines, n - 1);
      var y, cover := p.corpus[n-1], chosen + FirstLines(p, lines, n - 1);
      if y.index in lines {
        assert chosen + FirstLines(p, lines, n) == cover + {y.index};
        CoverStep(p, chosen, d, cover, y);
        Distribute(d, p.Cost(lines, n - 1), y.length);
      } else {
        assert chosen + FirstLines(p, lines, n) == cover;
      }
    }
  }

  lemma Distribute(d: real, a: nat, b: nat)
    ensures d * (a + b) as real == d * a as real + d * b as real
  {
    assert (a + b) as real == a as real + b as real;
  }

  lemma CoverStep(p: Problem, chosen: set<nat>, d: real, cover: set<nat>, y: Sentence)
    requires p.Valid() && DensityBound(p, chosen, d) && chosen <= cover && y in p.corpus
    ensures p.Value(cover + {y.index}) <= p.Value(cover) + d * y.length as real
  {
    hide Problem.Valid, Problem.Value;
    if y.index in chosen {
      assert cover + {y.index} == cover;
      ProductNonNegative(d, y.length as real);
    } else {
      assert y in p.Remaining(chosen);
      p.Submodular(chosen, cover, y);
    }
  }

  /** Fraction of the gap a pick of the given cost leaves. */
  ghost function Left(cost: nat, budget: nat): (r: real)
    requires budget > 0
    ensures 0.0 <= r <= 1.0
  {
    if cost >= budget then 0.0 else
      FractionBounds(cost, budget);
      1.0 - cost as real / budget as real
  }

  lemma FractionBounds(cost: nat, budget: nat)
    requires cost < budget
    ensures 0.0 <= cost as real / budget as real <= 1.0
  {
    var b := budget as real;
    assert cost as real / b * b == cost as real;
    var q := cost as real / b;
    if q > 1.0 {
      MulStrict(1.0, q, b);
    }
  }

  /** A greedy pick of cost c closes at least c/budget of the gap to any affordable set. */
  lemma GapShrinks(p: Problem, budget: nat, chosen: set<nat>, x: Sentence, lines: set<nat>)
    requires p.Valid() && GreedyPick(p, chosen, x) && budget > 0
    requires lines <= p.Lines() && p.Cost(lines, |p.corpus|) <= budget
    ensures var gap := p.Value(lines) - p.Value(chosen);
            && p.Value(lines) - p.Value(chosen + {x.index}) <= gap * (1.0 - x.length as real / budget as real)
            && p.Value(lines) - p.Value(chosen + {x.index}) <= gap * Left(x.length, budget)
  {
    hide *;
    GreedyPickBounds(p, chosen, x);
    var n, d := |p.corpus|, p.Density(chosen, x);
    assert p.Value(lines) - p.Value(chosen) <= d * budget as real by {
      FirstLinesAll(p, lines);
      p.ValueMonotone(lines, chosen + FirstLines(p, lines, n));
      CoverBound(p, chosen, d, lines, n);
      ScaleMonotone(p.Cost(lines, n) as real, budget as real, d);
    }
    GapArithmetic(p.Value(lines) - p.Value(chosen), d, x.length, budget);
  }

  lemma GapArithmetic(gap: real, d: real, cost: nat, budget: nat)
    requires budget > 0 && d >= 0.0 && gap <= d * budget as real
    ensures gap - d * cost as real <= gap * (1.0 - cost as real / budget as real)
    ensures gap - d * cost as real <= gap * Left(cost, budget)
  {
    var c, b := cost as real, budget as real;
    var f := c / b;
    assert f >= 0.0 && f * b == c;
    ScaleMonotone(gap, d * b, f);
    assert d * b * f == d * c;
    assert gap * (1.0 - f) == gap - gap * f;
    if cost >= budget && gap >= 0.0 {
      ProductNonNegative(d, c - b);
      assert d * c - d * b == d * (c - b);
    } else if cost >= budget {
      ProductNonNegative(d, c);
    }
  }

  // ---------- a whole run ----------

  ghost function LeftAfter(picks: seq<Sentence>, budget: nat): (r: real)
    requires budget > 0
    ensures 0.0 <= r
  {
    if picks == [] then 1.0 else
      var before := LeftAfter(picks[..|picks|-1], budget);
      var last := Left(picks[|picks|-1].length, budget);
      ProductNonNegative(before, last);
      before * last
  }

  lemma NoLines()
    ensures LinesOf([]) == {}
  {
  }

  lemma LinesOfSnoc(before: seq<Sentence>, x: Sentence)
    ensures LinesOf(before + [x]) == LinesOf(before) + {x.index}
  {
    assert forall y :: y in before + [x] <==> y in before || y == x;
  }

  /** The gap left by a greedy run is at most the product of the fractions its picks leave. */
  lemma {:induction false} GapAfter(p: Problem, budget: nat, picks: seq<Sentence>, lines: set<nat>)
    requires p.Valid() && GreedyRun(p, budget, picks) && budget > 0
    requires lines <= p.Lines() && p.Cost(lines, |p.corpus|) <= budget
    ensures p.Value(lines) - p.Value(LinesOf(picks)) <= LeftAfter(picks, budget) * p.Value(lines)
  {
    hide Problem.Valid, Problem.Value, Problem.Cost, Problem.Lines, Left, LinesOf, CostOf, GreedyPick;
    if picks == [] {
      NoLines();
      p.EmptyValue();
    } else {
      var before, x := picks[..|picks|-1], picks[|picks|-1];
      assert picks == before + [x];
      LinesOfSnoc(before, x);
      GapAfter(p, budget, before, lines);
      GapShrinks(p, budget, LinesOf(before), x, lines);
      ChainGaps(p.Value(lines) - p.Value(LinesOf(before)), p.Value(lines) - p.Value(LinesOf(picks)),
                LeftAfter(before, budget), Left(x.length, budget), LeftAfter(picks, budget), p.Value(lines));
    }
  }

  lemma ChainGaps(gap: real, gap': real, left: real, f: real, left': real, v: real)
    requires gap <= left * v && gap' <= gap * f && 0.0 <= f && left' == left * f
    ensures gap' <= left' * v
  {
    ScaleMonotone(gap, left * v, f);
    assert left * v * f == left * f * v;
  }

  lemma {:induction false} LeftIsExponential(e: real -> real, picks: seq<Sentence>, budget: nat)
    requires IsExp(e) && budget > 0
    ensures LeftAfter(picks, budget) <= e(-(CostOf(picks) as real / budget as real))
  {
    hide IsExp, Left;
    if picks == [] {
      ExpPositive(e, 0.0);
    } else {
      var before, c := picks[..|picks|-1], picks[|picks|-1].length;
      LeftIsExponential(e, before, budget);
      var s, t := -(CostOf(before) as real / budget as real), -(c as real / budget as real);
      ExpPositive(e, s);
      ExpPositive(e, t);
      LeftBelowExp(e, c, budget);
      SumOfQuotients(CostOf(before) as real, c as real, budget as real);
      assert s + t == -(CostOf(picks) as real / budget as real);
      ProductMonotone(LeftAfter(before, budget), e(s), Left(c, budget), e(t));
      assert e(s + t) == e(s) * e(t) by {
        assert SumLaw(e, s, t) by { SumLawHolds(e, s, t); }
      }
    }
  }

  lemma SumLawHolds(e: real -> real, x: real, y: real)
    requires IsExp(e)
    ensures SumLaw(e, x, y)
  {
  }

  lemma LeftBelowExp(e: real -> real, cost: nat, budget: nat)
    requires IsExp(e) && budget > 0
    ensures Left(cost, budget) <= e(-(cost as real / budget as real))
  {
    ExpPositive(e, -(cost as real / budget as real));
  }

  lemma SumOfQuotients(a: real, b: real, c: real)
    requires c > 0.0
    ensures a / c + b / c == (a + b) / c
  {
  }

  /** Main bound: a finished greedy run is worth at least (1 - 1/e) of every affordable set. */
  lemma GreedyGuarantee(p: Problem, budget: nat, picks: seq<Sentence>, lines: set<nat>, e: real -> real)
    requires p.Valid() && GreedyRun(p, budget, picks) && Finished(p, budget, picks) && IsExp(e)
    requires lines <= p.Lines() && p.Cost(lines, |p.corpus|) <= budget
    ensures p.Value(LinesOf(picks)) >= (1.0 - e(-1.0)) * p.Value(lines)
  {
    hide Problem.Valid, Problem.Value, GreedyRun, IsExp;
    p.EmptyValue();
    p.ValueMonotone({}, lines);
    ExpPositive(e, -1.0);
    ProductNonNegative(e(-1.0), p.Value(lines));
    if p.Remaining(LinesOf(picks)) == {} {
      assert lines <= LinesOf(picks) by {
        forall l | l in lines ensures l in LinesOf(picks) {
          var x :| x in p.corpus && x.index == l;
          assert x !in p.Remaining(LinesOf(picks));
        }
      }
      p.ValueMonotone(lines, LinesOf(picks));
    } else if budget == 0 {
      NothingIsFree(p, lines);
      p.ValueMonotone({}, LinesOf(picks));
    } else {
      GapAfter(p, budget, picks, lines);
      LeftIsExponential(e, picks, budget);
      CostRatio(CostOf(picks), budget);
      ExpMonotone(e, -(CostOf(picks) as real / budget as real), -1.0);
      ScaleMonotone(LeftAfter(picks, budget), e(-1.0), p.Value(lines));
    }
  }

  lemma CostRatio(cost: nat, budget: nat)
    requires cost >= budget > 0
    ensures cost as real / budget as real >= 1.0
  {
    var q, b := cost as real / budget as real, budget as real;
    assert q * b == cost as real;
    if q < 1.0 {
      MulStrict(q, 1.0, b);
    }
  }

  lemma NothingIsFree(p: Problem, lines: set<nat>)
    requires p.Valid() && lines <= p.Lines() && p.Cost(lines, |p.corpus|) == 0
    ensures lines == {}
  {
    forall i | 0 <= i < |p.corpus| ensures p.corpus[i].index !in lines {
      CostCounts(p, lines, i, |p.corpus|);
      assert WellFormed(p.Features(), p.corpus[i]);
    }
  }

  lemma {:induction false} CostCounts(p: Problem, lines: set<nat>, i: nat, n: nat)
    requires i < n <= |p.corpus|
    ensures p.corpus[i].index in lines ==> p.Cost(lines, n) >= p.corpus[i].length
  {
    if i < n - 1 {
      CostCounts(p, lines, i, n - 1);
    }
  }

  /** Every pick but the last fits the budget strictly, so the overshoot is less than the last pick. */
  lemma Overshoot(p: Problem, budget: nat, picks: seq<Sentence>)
    requires p.Valid() && GreedyRun(p, budget, picks)
    ensures picks != [] ==> CostOf(picks) < budget + picks[|picks|-1].length
  {
  }
}
