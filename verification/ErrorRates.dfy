/** The error count of a lattice's best path, and how the oracle compares. */
module ErrorRates {
  import opened Lattices
  import opened Viterbi
  import opened Alignments
  import opened Oracle

  /** No complete path weighs less than p. */
  ghost predicate IsBest(g: Lattice, p: seq<nat>)
    requires g.Valid()
  {
    && g.IsPath(0, p) && g.Arcs(p)
    && forall q | g.IsPath(0, q) && g.Arcs(q) :: g.PathScore(p) <= g.PathScore(q)
  }

  /** The words of some best path are compared with the reference; skip holds the tag words when tags are skipped. */
  method ComputeWER(g: Lattice, ref: seq<nat>, skip: set<nat>) returns (errors: nat, ghost best: seq<nat>)
    requires g.Valid()
    ensures IsBest(g, best)
    ensures forall a | Aligns(a, PathWords(g, skip, best), ref) :: errors <= Cost(a, {})
    ensures exists a :: Aligns(a, PathWords(g, skip, best), ref) && errors == Cost(a, {})
    ensures errors == Distance(PathWords(g, skip, best), ref)
  {
    hide Lattice.Valid, Lattice.IsPath, Lattice.Arcs, Lattice.PathScore, Best, TableOk, Follow, PathWords, Aligns;
    var bestArcs := new ArcScore[g.finalNode + 1](_ => ArcScore(-1, 0.0));
    ReverseViterbiSearch(g, bestArcs);
    best := Follow(g, bestArcs[..], 0);
    FollowIsBest(g, bestArcs[..], 0);
    forall q | g.IsPath(0, q) && g.Arcs(q) ensures g.PathScore(best) <= g.PathScore(q) {
      BestIsLeast(g, 0, q);
    }
    var hyp, _ := FindBestPath(g, bestArcs, skip);
    errors := WordErrors(hyp, ref);
  }

  // ---------- the oracle is never worse ----------

  lemma {:induction false} FreeCosts(a: seq<Edit>, free: set<nat>)
    ensures Cost(a, free) <= Cost(a, {})
  {
    if a != [] {
      FreeCosts(a[1..], free);
    }
  }

  lemma {:induction false} LastWord(g: Lattice, p: seq<nat>)
    requires g.Valid() && g.Arcs(p) && p != []
    ensures |g.words| == |g.starts| && Words(g, p) == PathWords(g, {}, p) + [g.words[p[|p|-1]]]
  {
    hide Lattice.Valid;
    g.ArcFacts(p[0]);
    assert forall k | 0 <= k < |p[1..]| :: p[1..][k] == p[k+1];
    if |p| > 1 {
      LastWord(g, p[1..]);
    } else {
      assert Words(g, p[1..]) == [];
    }
  }

  /** On a path whose last arc carries the end of sentence, the oracle count is at most the number of errors in
      its words. */
  lemma OracleNeverWorse(g: Lattice, ref: seq<nat>, p: seq<nat>)
    requires g.Valid() && g.IsPath(0, p) && g.Arcs(p)
    ensures p != [] && |g.words| == |g.starts|
    ensures g.words[p[|p|-1]] == 0 ==> Task(g, ref).ToGo((0, 0)) <= Distance(PathWords(g, {}, p), ref)
  {
    hide Task.ToGo, Distance, Words, PathWords;
    LastWord(g, p);
    if g.words[p[|p|-1]] == 0 {
      var a := DistanceIsMet(PathWords(g, {}, p), ref);
      Snoc(a, Insert(0), {0});
      FreeCosts(a, {0});
      assert ref[0..] == ref;
      ToGoIsLeast(Task(g, ref), (0, 0), p, a + [Insert(0)]);
    }
  }
}
