/** Forward, backward and posterior sums. */
module Posteriors {
  // All in the linear domain: an arc of weight w multiplies by factor(w), the exponential of -w.

  import opened Reals
  import opened Lattices
  import opened Ways

  datatype Mass = Mass(g: Lattice, factor: real -> real) {

    ghost predicate PositiveAt(w: real) {
      factor(w) > 0.0
    }

    ghost predicate Positive() {
      forall w: real :: PositiveAt(w)
    }

    ghost function F(i: nat): (r: real)
      requires g.Valid() && Positive() && i < |g.starts|
      ensures r > 0.0
    {
      g.ArcFacts(i);
      assert PositiveAt(g.weights[i]);
      factor(g.weights[i])
    }

    ghost function Start(i: nat): (n: nat)
      requires g.Valid() && Positive() && i < |g.starts|
      ensures n < g.End(i) <= g.finalNode
    {
      g.ArcFacts(i);
      g.starts[i]
    }

    /** Forward score of node n, over the arcs that arrive there. */
    ghost function Alpha(n: nat): (r: real)
      requires g.Valid() && Positive() && n <= g.finalNode
      ensures r >= 0.0
      decreases n, 1, 0
    {
      if n == 0 then 1.0 else Into(n, |g.starts|)
    }

    /** The part of it that arrives by the first k arcs. */
    ghost function Into(n: nat, k: nat): (r: real)
      requires g.Valid() && Positive() && n <= g.finalNode && k <= |g.starts|
      ensures r >= 0.0
      decreases n, 0, k
    {
      if k == 0 then 0.0
      else if g.End(k - 1) == n then
        ProductNonNegative(Alpha(Start(k - 1)), F(k - 1));
        Into(n, k - 1) + Alpha(Start(k - 1)) * F(k - 1)
      else Into(n, k - 1)
    }

    /** Backward score of node n, over the arcs that leave it. */
    ghost function Beta(n: nat): (r: real)
      requires g.Valid() && Positive() && n <= g.finalNode
      ensures r > 0.0
      decreases g.finalNode - n, 1, 0
    {
      if n == g.finalNode then 1.0 else From(n, g.First(n))
    }

    /** The part of it that leaves by the arcs of n from lo on. */
    ghost function From(n: nat, lo: nat): (r: real)
      requires g.Valid() && Positive() && n < g.finalNode && g.First(n) <= lo <= g.Past(n)
      ensures r >= 0.0 && (lo < g.Past(n) ==> r > 0.0)
      decreases g.finalNode - n, 0, g.Past(n) - lo
    {
      if lo == g.Past(n) then 0.0
      else
        g.Onward(n, lo);
        ProductPositive(Beta(g.End(lo)), F(lo));
        From(n, lo + 1) + Beta(g.End(lo)) * F(lo)
    }

    /** Forward score, factor and backward score of arc i. */
    ghost function Through(i: nat): (r: real)
      requires g.Valid() && Positive() && i < |g.starts|
      ensures r >= 0.0
    {
      ProductNonNegative(Alpha(Start(i)), F(i));
      ProductNonNegative(Alpha(Start(i)) * F(i), Beta(g.End(i)));
      Alpha(Start(i)) * F(i) * Beta(g.End(i))
    }

    /** Mass across the cut after node k, over the first m arcs. */
    ghost function Across(k: nat, m: nat): real
      requires g.Valid() && Positive() && m <= |g.starts|
    {
      if m == 0 then 0.0
      else Across(k, m - 1) + if Start(m - 1) <= k < g.End(m - 1) then Through(m - 1) else 0.0
    }

    ghost function Arriving(n: nat, m: nat): real
      requires g.Valid() && Positive() && m <= |g.starts|
    {
      if m == 0 then 0.0 else Arriving(n, m - 1) + if g.End(m - 1) == n then Through(m - 1) else 0.0
    }

    ghost function Leaving(n: nat, m: nat): real
      requires g.Valid() && Positive() && m <= |g.starts|
    {
      if m == 0 then 0.0 else Leaving(n, m - 1) + if Start(m - 1) == n then Through(m - 1) else 0.0
    }

    /** Moving the cut past a node drops the arcs that end there and adds those that start there. */
    lemma {:induction false} MoveCut(k: nat, m: nat)
      requires g.Valid() && Positive() && m <= |g.starts|
      ensures Across(k + 1, m) == Across(k, m) - Arriving(k + 1, m) + Leaving(k + 1, m)
    {
      hide Lattice.Valid, Positive, Through;
      if m > 0 {
        MoveCut(k, m - 1);
        assert Start(m - 1) < g.End(m - 1);
      }
    }

    lemma ArrivingMass(n: nat, m: nat)
      requires g.Valid() && Positive() && m <= |g.starts| && n <= g.finalNode
      ensures Arriving(n, m) == Into(n, m) * Beta(n)
    {
      hide Lattice.Valid, Positive, Beta, Into, Arriving;
      ArrivingProduct(n, m);
    }

    lemma {:induction false} ArrivingProduct(n: nat, m: nat)
      requires g.Valid() && Positive() && m <= |g.starts| && n <= g.finalNode
      ensures Product(Arriving(n, m), Into(n, m), Beta(n))
    {
      hide Lattice.Valid, Positive, Beta, Alpha, F, Through, Product;
      if m == 0 {
        ZeroProduct(Beta(n));
      } else {
        ArrivingProduct(n, m - 1);
        if g.End(m - 1) == n {
          var more := IntoStep(n, m - 1);
          ProductsAdd(Arriving(n, m - 1), Into(n, m - 1), Through(m - 1), more, Beta(n));
        }
      }
    }

    /** What arc i brings to where it leads. */
    lemma IntoNext(n: nat, i: nat) returns (more: real)
      requires g.Valid() && Positive() && n <= g.finalNode && i < |g.starts| && g.End(i) == n
      ensures Start(i) == g.starts[i] <= g.finalNode
      ensures Into(n, i + 1) == Into(n, i) + more && Product(more, Alpha(Start(i)), F(i))
    {
      hide Lattice.Valid, Positive;
      more := Alpha(Start(i)) * F(i);
    }

    lemma IntoStep(n: nat, i: nat) returns (more: real)
      requires g.Valid() && Positive() && n <= g.finalNode && i < |g.starts| && g.End(i) == n
      ensures Into(n, i + 1) == Into(n, i) + more && Product(Through(i), more, Beta(n))
    {
      hide Lattice.Valid, Positive, Beta;
      more := Alpha(Start(i)) * F(i);
    }

    /** Up to arc lo of node n, what leaves n so far is Alpha(n) times what the later arcs do not carry. */
    lemma {:induction false} LeavingMass(n: nat, lo: nat)
      requires g.Valid() && Positive() && n < g.finalNode && g.First(n) <= lo <= g.Past(n)
      ensures Leaving(n, g.Past(n)) == Leaving(n, lo) + Alpha(n) * From(n, lo)
      decreases g.Past(n) - lo
    {
      hide Lattice.Valid, Positive, Beta, Alpha, Through, From, F;
      if lo < g.Past(n) {
        LeavingMass(n, lo + 1);
        OwnArc(n, lo);
        LeavingStep(n, lo);
      } else {
        assert From(n, lo) == 0.0 by { NoneLeft(n); }
      }
    }

    lemma NoneLeft(n: nat)
      requires g.Valid() && Positive() && n < g.finalNode
      ensures From(n, g.Past(n)) == 0.0
    {
    }

    lemma LeavingStep(n: nat, lo: nat)
      requires g.Valid() && Positive() && n < g.finalNode && g.First(n) <= lo < g.Past(n) && Start(lo) == n
      ensures Alpha(n) * From(n, lo) == Alpha(n) * From(n, lo + 1) + Through(lo)
    {
      hide Lattice.Valid, Positive, Beta, Alpha, F;
      var rest, b, f := From(n, lo + 1), Beta(g.End(lo)), F(lo);
      Distribute'(Alpha(n), rest, b * f);
      Reorder(Alpha(n), b, f);
    }

    lemma OwnArc(n: nat, i: nat)
      requires g.Valid() && Positive() && n < g.finalNode && g.First(n) <= i < g.Past(n)
      ensures i < |g.starts| && Start(i) == n
    {
      g.NodeFacts(n);
    }

    lemma {:induction false} NodesAscend(a: nat, b: nat)
      requires g.Valid() && Positive() && a <= b <= g.finalNode
      ensures g.nodeArcs[a] <= g.nodeArcs[b] <= |g.starts|
      decreases b - a
    {
      if a < b {
        g.NodeFacts(b - 1);
        NodesAscend(a, b - 1);
        assert b - 1 + 1 == b;
      } else if a < g.finalNode {
        g.NodeFacts(a);
      }
    }

    /** Arcs are sorted by start node. */
    lemma StartsSorted(i: nat, j: nat)
      requires g.Valid() && Positive() && i <= j < |g.starts|
      ensures Start(i) <= Start(j)
    {
      g.ArcFacts(i);
      g.ArcFacts(j);
      if Start(j) < Start(i) {
        NodesAscend(Start(j) + 1, Start(i));
      }
    }

    /** Outside its own range of arcs nothing leaves n. */
    lemma {:induction false} LeavingElsewhere(n: nat, m: nat)
      requires g.Valid() && Positive() && n < g.finalNode && m <= |g.starts|
      ensures m <= g.First(n) ==> Leaving(n, m) == 0.0
      ensures m >= g.Past(n) ==> Leaving(n, m) == Leaving(n, g.Past(n))
    {
      if m > 0 && (m <= g.First(n) || m > g.Past(n)) {
        hide Through;
        LeavingElsewhere(n, m - 1);
        g.ArcFacts(m - 1);
      }
    }

    lemma {:induction false} StartAcross(m: nat)
      requires g.Valid() && Positive() && m <= |g.starts|
      ensures Across(0, m) == Leaving(0, m)
    {
      hide Lattice.Valid, Positive, Through;
      if m > 0 {
        StartAcross(m - 1);
      }
    }

    lemma {:induction false} EndAcross(m: nat)
      requires g.Valid() && Positive() && m <= |g.starts| && g.finalNode > 0
      ensures Across(g.finalNode - 1, m) == Arriving(g.finalNode, m)
    {
      hide Lattice.Valid, Positive, Through;
      if m > 0 {
        EndAcross(m - 1);
        assert Start(m - 1) < g.End(m - 1) <= g.finalNode;
      }
    }

    lemma NodeMass(n: nat)
      requires g.Valid() && Positive() && n < g.finalNode
      ensures Leaving(n, |g.starts|) == Alpha(n) * Beta(n)
    {
      hide Lattice.Valid, Positive, Leaving, From, Alpha;
      LeavingElsewhere(n, |g.starts|);
      LeavingElsewhere(n, g.First(n));
      LeavingMass(n, g.First(n));
    }

    /** The same mass crosses every cut: what leaves node 0, and what arrives at the end. */
    lemma {:induction false} CutMass(k: nat)
      requires g.Valid() && Positive() && k < g.finalNode
      ensures Across(k, |g.starts|) == Beta(0)
    {
      hide Across, Arriving, Leaving, Beta, Into;
      if k == 0 {
        StartAcross(|g.starts|);
        NodeMass(0);
      } else {
        CutMass(k - 1);
        MoveCut(k - 1, |g.starts|);
        ArrivingMass(k, |g.starts|);
        NodeMass(k);
      }
    }

    /** Forward and backward totals agree. */
    lemma TotalsAgree()
      requires g.Valid() && Positive()
      ensures Alpha(g.finalNode) == Beta(0) > 0.0
    {
      hide Across, Arriving, Leaving, Into;
      CutMass(g.finalNode - 1);
      EndAcross(|g.starts|);
      ArrivingMass(g.finalNode, |g.starts|);
    }

    // ---------- Beta(0) is the mass of all complete paths ----------

    ghost function PathMass(p: seq<nat>): real
      requires g.Valid() && Positive() && g.Arcs(p)
    {
      if p == [] then 1.0 else
        assert forall k | 0 <= k < |p[1..]| :: p[1..][k] == p[k+1];
        PathMass(p[1..]) * F(p[0])
    }

    ghost function Masses(paths: seq<seq<nat>>): real
      requires g.Valid() && Positive()
    {
      if paths == [] then 0.0
      else (if g.Arcs(paths[0]) then PathMass(paths[0]) else 0.0) + Masses(paths[1..])
    }

    lemma {:induction false} MassesAppend(a: seq<seq<nat>>, b: seq<seq<nat>>)
      requires g.Valid() && Positive()
      ensures Masses(a + b) == Masses(a) + Masses(b)
    {
      hide Lattice.Valid, Positive, PathMass;
      if a == [] {
        assert a + b == b;
      } else {
        MassesAppend(a[1..], b);
        assert (a + b)[0] == a[0] && (a + b)[1..] == a[1..] + b;
      }
    }

    lemma MassesPrepend(i: nat, tails: seq<seq<nat>>)
      requires g.Valid() && Positive() && i < |g.starts| && AllArcs(tails)
      ensures Masses(Prepend(i, tails)) == Masses(tails) * F(i)
    {
      hide Lattice.Valid, Positive, F, PathMass, Masses, AllArcs;
      assert Prepend(i, tails) == Glue([i], tails);
      OneArc(i);
      MassesGlue([i], tails);
    }

    /** Beta sums the products of factors over every path to the final node. */
    lemma {:induction false} BetaIsPathMass(n: nat)
      requires g.Valid() && Positive() && n <= g.finalNode
      ensures Beta(n) == Masses(g.AllPaths(n))
      decreases g.finalNode - n, 1, 0
    {
      if n < g.finalNode {
        ArcsArePathMass(n, g.Past(n));
        assert From(n, g.Past(n)) == 0.0;
      } else {
        assert Masses([[]]) == PathMass([]) + Masses([]);
      }
    }

    lemma {:induction false} ArcsArePathMass(n: nat, hi: nat)
      requires g.Valid() && Positive() && n < g.finalNode && g.First(n) <= hi <= g.Past(n)
      ensures Beta(n) == Masses(g.ArcPaths(n, hi)) + From(n, hi)
      decreases g.finalNode - n, 0, hi
    {
      hide Lattice.Valid, Positive, PathMass, Masses, F, Beta, From, AllArcs;
      if hi == g.First(n) {
        NoMasses();
        AllLeave(n);
      } else {
        var i := hi - 1;
        g.Onward(n, i);
        OwnArc(n, i);
        ArcsArePathMass(n, i);
        BetaIsPathMass(g.End(i));
        BackUnfold(this, n, i);
        var tails := g.AllPaths(g.End(i));
        AllPathsAreArcs(g.End(i));
        MassesPrepend(i, tails);
        MassesAppend(g.ArcPaths(n, i), Prepend(i, tails));
      }
    }

    lemma AllLeave(n: nat)
      requires g.Valid() && Positive() && n < g.finalNode
      ensures Beta(n) == From(n, g.First(n))
    {
      hide Lattice.Valid, Positive, From;
    }

    lemma NoMasses()
      requires g.Valid() && Positive()
      ensures Masses([]) == 0.0
    {
    }

    // ---------- and Alpha, Through the masses of the ways to a node and of the paths through an arc ----------

    lemma FirstArc(p: seq<nat>)
      requires g.Valid() && Positive() && g.Arcs(p) && p != []
      ensures g.Arcs(p[1..]) && Product(PathMass(p), PathMass(p[1..]), F(p[0]))
    {
      hide Lattice.Valid, Positive, F;
      assert forall k | 0 <= k < |p[1..]| :: p[1..][k] == p[k+1];
    }

    lemma {:induction false} MassJoins(a: seq<nat>, b: seq<nat>)
      requires g.Valid() && Positive() && g.Arcs(a) && g.Arcs(b)
      ensures g.Arcs(a + b) && Product(PathMass(a + b), PathMass(a), PathMass(b))
    {
      hide Lattice.Valid, Positive, F, PathMass, Product;
      if a == [] {
        assert a + b == b;
        NoArcs(b);
      } else {
        FirstArc(a);
        MassJoins(a[1..], b);
        assert (a + b)[0] == a[0] && (a + b)[1..] == a[1..] + b;
        FirstArc(a + b);
        ProductMoves(PathMass(a + b), PathMass(a[1..] + b), PathMass(a), PathMass(a[1..]), PathMass(b), F(a[0]));
      }
    }

    lemma NoArcs(b: seq<nat>)
      requires g.Valid() && Positive() && g.Arcs(b)
      ensures Product(PathMass(b), PathMass([]), PathMass(b))
    {
      hide Lattice.Valid, Positive, F;
      assert PathMass([]) == 1.0;
    }

    lemma OneArc(i: nat)
      requires g.Valid() && Positive() && i < |g.starts|
      ensures g.Arcs([i]) && PathMass([i]) == F(i)
    {
      hide Lattice.Valid, Positive, F;
      assert [i][1..] == [];
      assert PathMass([]) == 1.0;
    }

    /** All are sequences of arcs. */
    ghost predicate AllArcs(paths: seq<seq<nat>>) {
      forall k | 0 <= k < |paths| :: g.Arcs(paths[k])
    }

    lemma {:induction false} MassesAppendArc(heads: seq<seq<nat>>, i: nat)
      requires g.Valid() && Positive() && i < |g.starts| && AllArcs(heads)
      ensures Product(Masses(Append(heads, i)), Masses(heads), F(i))
    {
      hide Lattice.Valid, Positive, F, PathMass, Product;
      if heads == [] {
        ZeroProduct(F(i));
      } else {
        MassesAppendArc(heads[1..], i);
        assert Append(heads, i)[1..] == Append(heads[1..], i);
        OneArc(i);
        MassJoins(heads[0], [i]);
        ProductsAdd(PathMass(heads[0] + [i]), PathMass(heads[0]), Masses(Append(heads[1..], i)), Masses(heads[1..]), F(i));
      }
    }

    lemma {:induction false} WaysAreArcs(n: nat, p: seq<nat>)
      requires g.Valid() && IsWay(g, n, p)
      ensures g.Arcs(p)
    {
      forall k | 0 <= k < |p| ensures p[k] < |g.starts| {
        ArcsBefore(g, n, p, p[k]);
      }
    }

    lemma WaysToAreArcs(n: nat)
      requires g.Valid() && n <= g.finalNode
      ensures AllArcs(WaysTo(g, n))
    {
      forall k | 0 <= k < |WaysTo(g, n)| ensures g.Arcs(WaysTo(g, n)[k]) {
        WaysSound(g, n, WaysTo(g, n)[k]);
        WaysAreArcs(n, WaysTo(g, n)[k]);
      }
    }

    lemma AllPathsAreArcs(n: nat)
      requires g.Valid() && n <= g.finalNode
      ensures AllArcs(g.AllPaths(n))
    {
      forall k | 0 <= k < |g.AllPaths(n)| ensures g.Arcs(g.AllPaths(n)[k]) {
        AllPathsSound(g, n, g.AllPaths(n)[k]);
        g.PathArcs(n, g.AllPaths(n)[k]);
      }
    }

    /** Alpha sums the products of factors over every way from node 0. */
    lemma {:induction false} AlphaIsPathMass(n: nat)
      requires g.Valid() && Positive() && n <= g.finalNode
      ensures Alpha(n) == Masses(WaysTo(g, n))
      decreases n, 1, 0
    {
      if n > 0 {
        IntoIsPathMass(n, |g.starts|);
      } else {
        assert Masses([[]]) == PathMass([]) + Masses([]);
      }
    }

    lemma {:induction false} IntoIsPathMass(n: nat, k: nat)
      requires g.Valid() && Positive() && n <= g.finalNode && k <= |g.starts|
      ensures Into(n, k) == Masses(WaysBy(g, n, k))
      decreases n, 0, k
    {
      hide Lattice.Valid, Positive, PathMass, Masses, F, Alpha, Product, Start, AllArcs;
      if k == 0 {
        NoMasses();
      } else {
        WayStep(g, k - 1);
        IntoIsPathMass(n, k - 1);
        NoMasses();
        if g.End(k - 1) == n {
          var heads := WaysTo(g, g.starts[k-1]);
          AlphaIsPathMass(g.starts[k-1]);
          WaysToAreArcs(g.starts[k-1]);
          MassesAppendArc(heads, k - 1);
          var more := IntoNext(n, k - 1);
          SameProduct(Masses(Append(heads, k - 1)), more, Masses(heads), F(k - 1));
          MassesAppend(WaysBy(g, n, k - 1), Append(heads, k - 1));
        } else {
          MassesAppend(WaysBy(g, n, k - 1), []);
        }
      }
    }

    lemma {:induction false} MassesGlue(p: seq<nat>, tails: seq<seq<nat>>)
      requires g.Valid() && Positive() && g.Arcs(p) && AllArcs(tails)
      ensures Product(Masses(Glue(p, tails)), Masses(tails), PathMass(p))
    {
      hide Lattice.Valid, Positive, F, PathMass, Product;
      if tails == [] {
        ZeroProduct(PathMass(p));
      } else {
        MassesGlue(p, tails[1..]);
        assert Glue(p, tails)[1..] == Glue(p, tails[1..]);
        MassJoins(p, tails[0]);
        ProductSwaps(PathMass(p + tails[0]), PathMass(p), PathMass(tails[0]));
        ProductsAdd(PathMass(p + tails[0]), PathMass(tails[0]), Masses(Glue(p, tails[1..])), Masses(tails[1..]), PathMass(p));
      }
    }

    lemma MassesFirstJoin(head: seq<nat>, i: nat, tails: seq<seq<nat>>, x: real)
      requires g.Valid() && Positive() && i < |g.starts| && g.Arcs(head) && AllArcs(tails)
      requires Product(x, F(i), Masses(tails))
      ensures Product(Masses(Glue(head + [i], tails)), PathMass(head), x)
    {
      hide Lattice.Valid, Positive, F, PathMass, Masses, Product;
      OneArc(i);
      MassJoins(head, [i]);
      MassesGlue(head + [i], tails);
      ProductRegroup(Masses(Glue(head + [i], tails)), Masses(tails), PathMass(head + [i]), PathMass(head), F(i), x);
    }

    lemma {:induction false} MassesJoin(heads: seq<seq<nat>>, i: nat, tails: seq<seq<nat>>, x: real)
      requires g.Valid() && Positive() && i < |g.starts| && AllArcs(heads) && AllArcs(tails)
      requires Product(x, F(i), Masses(tails))
      ensures Product(Masses(Joins(heads, i, tails)), Masses(heads), x)
    {
      hide Lattice.Valid, Positive, F, PathMass, Product;
      if heads == [] {
        ZeroProduct(x);
      } else {
        var first, rest := Glue(heads[0] + [i], tails), Joins(heads[1..], i, tails);
        MassesJoin(heads[1..], i, tails, x);
        MassesFirstJoin(heads[0], i, tails, x);
        MassesAppend(first, rest);
        ProductsAdd(Masses(first), PathMass(heads[0]), Masses(rest), Masses(heads[1..]), x);
      }
    }

    /** Two listings of the same paths have the same mass. */
    lemma {:induction false} SameMasses(xs: seq<seq<nat>>, ys: seq<seq<nat>>)
      requires g.Valid() && Positive() && SameListed(xs, ys)
      ensures Masses(xs) == Masses(ys)
    {
      hide Lattice.Valid, Positive, PathMass;
      assert ys != [] ==> ys[0] in xs;
      if xs != [] {
        assert xs[0] in ys;
        var k :| 0 <= k < |ys| && ys[k] == xs[0];
        TakenOut(xs, ys, k);
        SameMasses(xs[1..], ys[..k] + ys[k+1..]);
        MassesAppend(ys[..k], ys[k+1..]);
        MassesAppend(ys[..k], ys[k..]);
        assert ys == ys[..k] + ys[k..];
      }
    }

    /** Through(i) is the mass of the complete paths that use arc i. */
    lemma ThroughIsPathMass(i: nat)
      requires g.Valid() && Positive() && i < |g.starts|
      ensures Through(i) == Masses(Using(g.AllPaths(0), i))
    {
      hide Lattice.Valid, Positive, PathMass, Masses, F, Alpha, Beta, AllArcs;
      PathsThrough(g, i);
      var s, e := g.starts[i], g.End(i);
      SameMasses(Using(g.AllPaths(0), i), Joins(WaysTo(g, s), i, g.AllPaths(e)));
      WaysToAreArcs(s);
      AllPathsAreArcs(e);
      AlphaIsPathMass(s);
      BetaIsPathMass(e);
      var x := F(i) * Beta(e);
      MassesJoin(WaysTo(g, s), i, g.AllPaths(e), x);
      Regroup(Beta(e), Alpha(s), F(i));
    }
  }

  /** Taking the same path out of both listings leaves listings of the same paths. */
  lemma TakenOut(xs: seq<seq<nat>>, ys: seq<seq<nat>>, k: nat)
    requires SameListed(xs, ys) && xs != [] && k < |ys| && ys[k] == xs[0]
    ensures SameListed(xs[1..], ys[..k] + ys[k+1..])
  {
    var rest := ys[..k] + ys[k+1..];
    forall p: seq<nat> ensures p in xs[1..] <==> p in rest {
      assert p in xs <==> p == xs[0] || p in xs[1..];
      assert p in ys <==> p == ys[k] || p in rest by {
        assert ys == ys[..k] + [ys[k]] + ys[k+1..];
      }
      assert xs[0] !in xs[1..];
      assert ys[k] !in rest;
    }
  }

  // ---------- the three passes ----------

  /** What node n holds once the first k arcs are processed. */
  ghost function ForwardAt(m: Mass, n: nat, k: nat): real
    requires m.g.Valid() && m.Positive() && n <= m.g.finalNode && k <= |m.g.starts|
  {
    if n == 0 then 1.0 else m.Into(n, k)
  }

  /** By the time arc k is read its start node is complete: all arcs into it came before. */
  lemma {:induction false} StartComplete(m: Mass, k: nat, j: nat)
    requires m.g.Valid() && m.Positive() && k <= j <= |m.g.starts| && k < |m.g.starts|
    ensures m.Into(m.Start(k), j) == m.Into(m.Start(k), k)
    decreases j - k
  {
    hide Lattice.Valid, Mass.Positive, Mass.Alpha;
    if k < j {
      StartComplete(m, k, j - 1);
      m.StartsSorted(k, j - 1);
    }
  }

  lemma ForwardStep(m: Mass, k: nat)
    requires m.g.Valid() && m.Positive() && k < |m.g.starts|
    ensures |m.g.starts| == |m.g.ends| == |m.g.weights|
    ensures m.g.starts[k] == m.Start(k) < m.g.ends[k] == m.g.End(k) <= m.g.finalNode
    ensures m.factor(m.g.weights[k]) == m.F(k)
    ensures ForwardAt(m, m.Start(k), k) == m.Alpha(m.Start(k))
    ensures forall n | 0 <= n <= m.g.finalNode :: ForwardAt(m, n, k + 1)
              == ForwardAt(m, n, k) + if n == m.g.End(k) then m.Alpha(m.Start(k)) * m.F(k) else 0.0
  {
    m.g.ArcFacts(k);
    StartComplete(m, k, |m.g.starts|);
  }

  method ComputeForwardScores(m: Mass, nodeScores: array<real>)
    requires m.g.Valid() && m.Positive() && nodeScores.Length == m.g.finalNode + 1
    modifies nodeScores
    ensures forall n | 0 <= n <= m.g.finalNode :: nodeScores[n] == m.Alpha(n) == m.Masses(WaysTo(m.g, n))
  {
    hide Lattice.Valid, Mass.Positive, Mass.Alpha, Mass.F, Mass.Start, Lattice.End;
    for n := 0 to nodeScores.Length
      invariant forall j | 0 <= j < n :: nodeScores[j] == 0.0
    {
      nodeScores[n] := 0.0;
    }
    nodeScores[0] := 1.0;
    for i := 0 to |m.g.starts|
      invariant forall n | 0 <= n <= m.g.finalNode :: nodeScores[n] == ForwardAt(m, n, i)
    {
      ForwardStep(m, i);
      nodeScores[m.g.ends[i]] := nodeScores[m.g.ends[i]] + nodeScores[m.g.starts[i]] * m.factor(m.g.weights[i]);
    }
    ForwardEnd(m);
    forall n | 0 <= n <= m.g.finalNode ensures m.Alpha(n) == m.Masses(WaysTo(m.g, n)) {
      m.AlphaIsPathMass(n);
    }
  }

  lemma ForwardEnd(m: Mass)
    requires m.g.Valid() && m.Positive()
    ensures forall n | 0 <= n <= m.g.finalNode :: ForwardAt(m, n, |m.g.starts|) == m.Alpha(n)
  {
  }

  /** The running total over the arcs of the current node from lo on. */
  ghost predicate BackSoFar(m: Mass, n: nat, lo: nat, total: real)
    requires m.g.Valid() && m.Positive() && n <= m.g.finalNode
  {
    if n == m.g.finalNode then lo == |m.g.starts| && total == 1.0
    else m.g.First(n) <= lo < m.g.Past(n) && total == m.From(n, lo)
  }

  lemma BackDone(m: Mass, n: nat, lo: nat, total: real)
    requires m.g.Valid() && m.Positive() && n <= m.g.finalNode && BackSoFar(m, n, lo, total)
    requires lo == 0 || m.g.starts[lo-1] != n
    ensures total == m.Beta(n)
    ensures lo == 0 <==> n == 0
    ensures n > 0 ==> m.g.starts[lo-1] == n - 1 && m.g.First(n - 1) <= lo - 1 && lo == m.g.Past(n - 1)
  {
    if n < m.g.finalNode {
      m.g.NodeFacts(n);
    }
    if n > 0 {
      m.g.NodeFacts(n - 1);
    }
  }

  lemma BackArc(m: Mass, i: nat, total: real)
    requires m.g.Valid() && m.Positive() && i < |m.g.starts|
    ensures |m.g.starts| == |m.g.ends| == |m.g.weights|
    ensures m.g.starts[i] < m.g.ends[i] == m.g.End(i) <= m.g.finalNode
    ensures m.factor(m.g.weights[i]) == m.F(i)
    ensures var n := m.g.starts[i]; m.g.First(n) <= i < m.g.Past(n)
    ensures var n := m.g.starts[i]; i + 1 == m.g.Past(n) ==> BackSoFar(m, n, i, Via(m, i))
    ensures var n := m.g.starts[i]; BackSoFar(m, n, i + 1, total) ==> BackSoFar(m, n, i, total + Via(m, i))
  {
    hide Lattice.Valid, Mass.Positive, Mass.Beta, Mass.From, BackSoFar, Via;
    m.g.ArcFacts(i);
    m.g.NodeFacts(m.g.starts[i]);
    Unfold(m, i);
    BackAt(m, m.g.starts[i], i, total);
  }

  lemma BackAt(m: Mass, n: nat, i: nat, total: real)
    requires m.g.Valid() && m.Positive() && n < m.g.finalNode && m.g.First(n) <= i < m.g.Past(n)
    ensures i < |m.g.starts|
    ensures i + 1 == m.g.Past(n) ==> BackSoFar(m, n, i, Via(m, i))
    ensures BackSoFar(m, n, i + 1, total) ==> BackSoFar(m, n, i, total + Via(m, i))
  {
    hide Lattice.Valid, Mass.Positive, Mass.Beta, Mass.From, Mass.F, Lattice.First, Lattice.Past, Lattice.End;
    BackUnfold(m, n, i);
    var rest, more := m.From(n, i + 1), Via(m, i);
    assert m.From(n, i) == rest + more;
  }

  /** What leads on by arc i. */
  ghost function Via(m: Mass, i: nat): real
    requires m.g.Valid() && m.Positive() && i < |m.g.starts|
  {
    m.Beta(m.g.End(i)) * m.F(i)
  }

  lemma ViaIs(m: Mass, i: nat, b: real, f: real)
    requires m.g.Valid() && m.Positive() && i < |m.g.starts| && b == m.Beta(m.g.End(i)) && f == m.F(i)
    ensures b * f == Via(m, i)
  {
    hide Lattice.Valid, Mass.Positive, Mass.Beta, Mass.F;
  }

  lemma Unfold(m: Mass, i: nat)
    requires m.g.Valid() && m.Positive() && i < |m.g.starts|
    ensures |m.g.starts| == |m.g.weights| && m.factor(m.g.weights[i]) == m.F(i)
  {
    m.g.ArcFacts(i);
  }

  lemma BackUnfold(m: Mass, n: nat, i: nat)
    requires m.g.Valid() && m.Positive() && n < m.g.finalNode && m.g.First(n) <= i < m.g.Past(n)
    ensures m.From(n, i) == m.From(n, i + 1) + m.Beta(m.g.End(i)) * m.F(i)
    ensures m.From(n, m.g.Past(n)) == 0.0
  {
    hide Lattice.Valid, Mass.Positive, Mass.Beta;
    m.g.Onward(n, i);
  }

  lemma BackStart(m: Mass)
    requires m.g.Valid() && m.Positive()
    ensures BackSoFar(m, m.g.finalNode, |m.g.starts|, 1.0) && |m.g.starts| == |m.g.ends|
  {
  }

  method ComputeBackwardScores(m: Mass, nodeScores: array<real>)
    requires m.g.Valid() && m.Positive() && nodeScores.Length == m.g.finalNode + 1
    modifies nodeScores
    ensures forall n | 0 <= n <= m.g.finalNode :: nodeScores[n] == m.Beta(n) == m.Masses(m.g.AllPaths(n))
  {
    hide Lattice.Valid, Mass.Positive, BackSoFar, Mass.Beta, Mass.F, Mass.Masses, Via;
    BackStart(m);
    var currentNode: nat := m.g.finalNode;
    var totScore := 1.0;
    var i := |m.g.ends| - 1;
    while i != -1
      invariant -1 <= i < |m.g.starts| == |m.g.ends| && currentNode <= m.g.finalNode
      invariant BackSoFar(m, currentNode, i + 1, totScore)
      invariant forall n | currentNode < n <= m.g.finalNode :: nodeScores[n] == m.Beta(n)
      decreases i
    {
      BackArc(m, i, totScore);
      if currentNode != m.g.starts[i] {
        BackDone(m, currentNode, i + 1, totScore);
        nodeScores[currentNode] := totScore;
        currentNode := m.g.starts[i];
        var b, f := nodeScores[m.g.ends[i]], m.factor(m.g.weights[i]);
        ViaIs(m, i, b, f);
        totScore := b * f;
        assert totScore == Via(m, i);
      } else {
        var b, f := nodeScores[m.g.ends[i]], m.factor(m.g.weights[i]);
        ViaIs(m, i, b, f);
        totScore := totScore + b * f;
      }
      i := i - 1;
    }
    BackDone(m, currentNode, 0, totScore);
    nodeScores[currentNode] := totScore;
    forall n | 0 <= n <= m.g.finalNode ensures m.Beta(n) == m.Masses(m.g.AllPaths(n)) {
      m.BetaIsPathMass(n);
    }
  }

  /** Sum of the given arc values across the cut after node k. */
  ghost function CutSum(m: Mass, probs: seq<real>, k: nat, n: nat): real
    requires m.g.Valid() && m.Positive() && n <= |probs| == |m.g.starts|
  {
    if n == 0 then 0.0
    else CutSum(m, probs, k, n - 1) + if m.Start(n - 1) <= k < m.g.End(n - 1) then probs[n-1] else 0.0
  }

  lemma {:induction false} CutSumScaled(m: Mass, probs: seq<real>, total: real, k: nat, n: nat)
    requires m.g.Valid() && m.Positive() && n <= |probs| == |m.g.starts|
    requires forall i | 0 <= i < |probs| :: ShareOf(m, i, total, probs[i])
    ensures CutSum(m, probs, k, n) * total == m.Across(k, n)
  {
    hide Lattice.Valid, Mass.Positive, Mass.Through;
    if n > 0 {
      CutSumScaled(m, probs, total, k, n - 1);
      if m.Start(n - 1) <= k < m.g.End(n - 1) {
        assert ShareOf(m, n - 1, total, probs[n-1]);
        Distribute(CutSum(m, probs, k, n - 1), probs[n-1], total);
      }
    }
  }

  lemma DivideOut(x: real, whole: real, total: real)
    requires total != 0.0 && x * total == whole == total
    ensures x == 1.0
  {
    assert (x - 1.0) * total == 0.0;
    assert x - 1.0 == 0.0;
  }

  /** Posterior of every arc: the share of the mass of all paths that uses it. Across each cut they sum to one. */
  method ComputePosteriorProbs(m: Mass, forwardScores: array<real>, backwardScores: array<real>)
    returns (arcProbs: seq<real>)
    requires m.g.Valid() && m.Positive()
    requires forwardScores.Length == backwardScores.Length == m.g.finalNode + 1
    requires forall n | 0 <= n <= m.g.finalNode :: forwardScores[n] == m.Alpha(n)
    requires forall n | 0 <= n <= m.g.finalNode :: backwardScores[n] == m.Beta(n)
    ensures forwardScores[m.g.finalNode] == backwardScores[0] == m.Masses(m.g.AllPaths(0))
    ensures |arcProbs| == |m.g.starts|
    ensures forall i | 0 <= i < |arcProbs| ::
              && arcProbs[i] >= 0.0
              && arcProbs[i] * m.Masses(m.g.AllPaths(0)) == m.Masses(Using(m.g.AllPaths(0), i))
    ensures forall k | 0 <= k < m.g.finalNode :: CutSum(m, arcProbs, k, |arcProbs|) == 1.0
  {
    hide Lattice.Valid, Mass.Positive, Mass.Alpha, Mass.Beta, Mass.F, Mass.Masses, ShareOf;
    m.TotalsAgree();
    m.BetaIsPathMass(0);
    var totScore := forwardScores[m.g.finalNode];
    arcProbs := [];
    for i := 0 to |m.g.starts|
      invariant |arcProbs| == i
      invariant forall j | 0 <= j < i :: ShareOf(m, j, totScore, arcProbs[j])
    {
      BackArc(m, i, 0.0);
      var a, f, b := forwardScores[m.g.starts[i]], m.factor(m.g.weights[i]), backwardScores[m.g.ends[i]];
      var p := a * f * b / totScore;
      IsShare(m, i, a, f, b, totScore, p);
      arcProbs := arcProbs + [p];
    }
    SharesAdd(m, totScore, arcProbs);
  }

  /** p is arc i's share of the total. */
  ghost predicate ShareOf(m: Mass, i: nat, total: real, p: real)
    requires m.g.Valid() && m.Positive() && i < |m.g.starts|
  {
    p >= 0.0 && p * total == m.Through(i)
  }

  lemma IsShare(m: Mass, i: nat, a: real, f: real, b: real, total: real, p: real)
    requires m.g.Valid() && m.Positive() && i < |m.g.starts| && total > 0.0 && m.g.starts[i] <= m.g.finalNode
    requires a == m.Alpha(m.g.starts[i]) && f == m.F(i) && b == m.Beta(m.g.End(i)) && p == a * f * b / total
    ensures ShareOf(m, i, total, p)
  {
    hide Lattice.Valid, Mass.Positive, Mass.Through, Mass.Alpha, Mass.Beta, Mass.F;
    ThroughUnfold(m, i);
    QuotientFacts(m.Through(i), total);
  }

  lemma SharesAdd(m: Mass, total: real, probs: seq<real>)
    requires m.g.Valid() && m.Positive() && |probs| == |m.g.starts|
    requires total == m.Beta(0)
    requires forall i | 0 <= i < |probs| :: ShareOf(m, i, total, probs[i])
    ensures forall i | 0 <= i < |probs| ::
              probs[i] >= 0.0 && probs[i] * total == m.Masses(Using(m.g.AllPaths(0), i))
    ensures forall k | 0 <= k < m.g.finalNode :: CutSum(m, probs, k, |probs|) == 1.0
  {
    hide Lattice.Valid, Mass.Positive, Mass.Beta, Mass.Masses, CutSum, ShareOf;
    forall i | 0 <= i < |probs| ensures probs[i] >= 0.0 && probs[i] * total == m.Masses(Using(m.g.AllPaths(0), i)) {
      ShareIsMass(m, i, total, probs[i]);
    }
    forall k | 0 <= k < m.g.finalNode ensures CutSum(m, probs, k, |probs|) == 1.0 {
      CutIsWhole(m, total, probs, k);
    }
  }

  lemma ShareIsMass(m: Mass, i: nat, total: real, p: real)
    requires m.g.Valid() && m.Positive() && i < |m.g.starts| && ShareOf(m, i, total, p)
    ensures p >= 0.0 && p * total == m.Masses(Using(m.g.AllPaths(0), i))
  {
    hide Lattice.Valid, Mass.Positive, Mass.Through, Mass.Masses;
    m.ThroughIsPathMass(i);
  }

  lemma CutIsWhole(m: Mass, total: real, probs: seq<real>, k: nat)
    requires m.g.Valid() && m.Positive() && |probs| == |m.g.starts| && total == m.Beta(0) && k < m.g.finalNode
    requires forall i | 0 <= i < |probs| :: ShareOf(m, i, total, probs[i])
    ensures CutSum(m, probs, k, |probs|) == 1.0
  {
    hide Lattice.Valid, Mass.Positive, Mass.Beta, Mass.Across, CutSum, ShareOf;
    m.CutMass(k);
    CutSumScaled(m, probs, total, k, |probs|);
    DivideOut(CutSum(m, probs, k, |probs|), m.Across(k, |probs|), total);
  }

  lemma ThroughUnfold(m: Mass, i: nat)
    requires m.g.Valid() && m.Positive() && i < |m.g.starts|
    ensures m.g.starts[i] <= m.g.finalNode
    ensures m.Through(i) == m.Alpha(m.g.starts[i]) * m.F(i) * m.Beta(m.g.End(i))
  {
    m.g.ArcFacts(i);
  }

  lemma QuotientFacts(x: real, total: real)
    requires x >= 0.0 && total > 0.0
    ensures x / total * total == x && x / total >= 0.0
  {
  }

  lemma ProductPositive(a: real, b: real)
    requires a > 0.0 && b > 0.0
    ensures a * b > 0.0
  {
  }

  lemma Distribute(a: real, b: real, c: real)
    ensures (a + b) * c == a * c + b * c
  {
  }

  lemma Distribute'(a: real, b: real, c: real)
    ensures a * (b + c) == a * b + a * c
  {
  }

  lemma Reorder(a: real, b: real, c: real)
    ensures a * (b * c) == a * c * b
  {
  }

  /** x is a times b; kept apart so that the solver meets no other products. */
  ghost predicate Product(x: real, a: real, b: real) {
    x == a * b
  }

  lemma SameProduct(x: real, y: real, a: real, b: real)
    requires Product(x, a, b) && Product(y, a, b)
    ensures x == y
  {
  }

  lemma ZeroProduct(b: real)
    ensures Product(0.0, 0.0, b)
  {
  }

  lemma ProductsAdd(x: real, a: real, y: real, b: real, c: real)
    requires Product(x, a, c) && Product(y, b, c)
    ensures Product(x + y, a + b, c)
  {
    Distribute(a, b, c);
  }

  lemma ProductSwaps(x: real, a: real, b: real)
    requires Product(x, a, b)
    ensures Product(x, b, a)
  {
  }

  /** A factor moves into both sides. */
  lemma ProductMoves(x: real, x': real, a: real, a': real, b: real, f: real)
    requires Product(x, x', f) && Product(x', a', b) && Product(a, a', f)
    ensures Product(x, a, b)
  {
    Regroup(f, a', b);
  }

  lemma ProductRegroup(x: real, t: real, h': real, h: real, f: real, y: real)
    requires Product(x, t, h') && Product(h', h, f) && Product(y, f, t)
    ensures Product(x, h, y)
  {
    Regroup(t, h, f);
  }

  lemma Regroup(a: real, b: real, c: real)
    ensures a * (b * c) == b * (c * a) == (b * a) * c == (b * c) * a
  {
  }
}
