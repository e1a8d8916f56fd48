/** Best paths to the final node. */
module Viterbi {
  import opened Lattices

  /** Best way out of a node: an arc (-1 at the final node) and the total weight from there on. */
  datatype ArcScore = ArcScore(arc: int, score: real)

  function Min(x: real, y: real): real { if y < x then y else x }

  /** Least total weight from node n to the final node. */
  ghost function Best(g: Lattice, n: nat): real
    requires g.Valid() && n <= g.finalNode
    decreases g.finalNode - n, 1, 0
  {
    if n == g.finalNode then 0.0 else BestFrom(g, n, g.First(n))
  }

  /** Least total weight over the arcs of n from lo on. */
  ghost function BestFrom(g: Lattice, n: nat, lo: nat): real
    requires g.Valid() && n < g.finalNode && g.First(n) <= lo < g.Past(n)
    decreases g.finalNode - n, 0, g.Past(n) - lo
  {
    g.Onward(n, lo);
    var via := g.weights[lo] + Best(g, g.End(lo));
    if lo + 1 == g.Past(n) then via else Min(BestFrom(g, n, lo + 1), via)
  }

  lemma {:induction false} BestFromBound(g: Lattice, n: nat, lo: nat, i: nat)
    requires g.Valid() && n < g.finalNode && g.First(n) <= lo <= i < g.Past(n)
    ensures BestFrom(g, n, lo) <= g.weights[i] + Best(g, g.End(i))
    decreases i - lo
  {
    hide Lattice.Valid;
    g.Onward(n, lo);
    if lo < i {
      BestFromBound(g, n, lo + 1, i);
    }
  }

  lemma {:induction false} BestFromMet(g: Lattice, n: nat, lo: nat) returns (i: nat)
    requires g.Valid() && n < g.finalNode && g.First(n) <= lo < g.Past(n)
    ensures lo <= i < g.Past(n) && BestFrom(g, n, lo) == g.weights[i] + Best(g, g.End(i))
    decreases g.Past(n) - lo
  {
    hide Lattice.Valid;
    g.Onward(n, lo);
    i := lo;
    if lo + 1 < g.Past(n) {
      var j := BestFromMet(g, n, lo + 1);
      if BestFrom(g, n, lo + 1) == BestFrom(g, n, lo) {
        i := j;
      }
    }
  }

  /** No path from n beats the best score. */
  lemma {:induction false} BestIsLeast(g: Lattice, n: nat, p: seq<nat>)
    requires g.Valid() && n <= g.finalNode && g.IsPath(n, p)
    ensures g.Arcs(p) && Best(g, n) <= g.PathScore(p)
    decreases |p|
  {
    hide Lattice.Valid, BestFrom;
    g.PathArcs(n, p);
    if p != [] {
      BestIsLeast(g, g.End(p[0]), p[1..]);
      BestFromBound(g, n, g.First(n), p[0]);
    }
  }

  lemma ConsPath(g: Lattice, n: nat, i: nat, rest: seq<nat>)
    requires g.Valid() && n < g.finalNode && g.First(n) <= i < g.Past(n) && g.IsPath(g.End(i), rest)
    ensures g.IsPath(n, [i] + rest) && g.Arcs([i] + rest) && g.Arcs(rest)
    ensures g.PathScore([i] + rest) == g.weights[i] + g.PathScore(rest)
  {
    assert ([i] + rest)[1..] == rest;
    g.PathArcs(g.End(i), rest);
    g.PathArcs(n, [i] + rest);
  }

  /** Some path from n attains it. */
  lemma {:induction false} BestIsMet(g: Lattice, n: nat) returns (p: seq<nat>)
    requires g.Valid() && n <= g.finalNode
    ensures g.IsPath(n, p) && g.Arcs(p) && g.PathScore(p) == Best(g, n)
    decreases g.finalNode - n
  {
    hide Lattice.Valid, BestFrom;
    if n == g.finalNode {
      p := [];
    } else {
      var i := BestFromMet(g, n, g.First(n));
      g.Onward(n, i);
      var rest := BestIsMet(g, g.End(i));
      p := [i] + rest;
      ConsPath(g, n, i, rest);
    }
  }

  /** The entry records the best score of node n and an arc that attains it. */
  ghost predicate EntryOk(g: Lattice, n: nat, e: ArcScore)
    requires g.Valid() && n <= g.finalNode
  {
    && e.score == Best(g, n)
    && (n < g.finalNode ==>
         && g.First(n) <= e.arc < g.Past(n)
         && g.weights[e.arc] + Best(g, g.End(e.arc)) == e.score)
  }

  /** Every node's entry is right. */
  ghost predicate TableOk(g: Lattice, table: seq<ArcScore>)
    requires g.Valid()
  {
    |table| == g.finalNode + 1 && forall n | 0 <= n <= g.finalNode :: EntryOk(g, n, table[n])
  }

  /** The running best over the arcs of node n from lo on. */
  ghost predicate BestSoFar(g: Lattice, n: nat, lo: nat, e: ArcScore)
    requires g.Valid() && n <= g.finalNode
  {
    if n == g.finalNode then lo == |g.starts| && e.score == 0.0
    else
      && g.First(n) <= lo < g.Past(n)
      && e.score == BestFrom(g, n, lo)
      && lo <= e.arc < g.Past(n)
      && g.weights[e.arc] + Best(g, g.End(e.arc)) == e.score
  }

  /** When the next arc belongs to another node, node n is finished and the next one is n - 1. */
  lemma NodeDone(g: Lattice, n: nat, lo: nat, e: ArcScore)
    requires g.Valid() && n <= g.finalNode && BestSoFar(g, n, lo, e)
    requires lo == 0 || g.starts[lo-1] != n
    ensures EntryOk(g, n, e)
    ensures lo == 0 <==> n == 0
    ensures n > 0 ==> g.starts[lo-1] == n - 1 && g.First(n - 1) <= lo - 1 && lo == g.Past(n - 1)
  {
    if n < g.finalNode {
      g.NodeFacts(n);
    }
    if n > 0 {
      g.NodeFacts(n - 1);
    }
  }

  lemma SearchStart(g: Lattice)
    requires g.Valid()
    ensures BestSoFar(g, g.finalNode, |g.starts|, ArcScore(-1, 0.0))
    ensures |g.starts| == |g.ends| == |g.weights|
  {
  }

  lemma EntryScore(g: Lattice, n: nat, e: ArcScore)
    requires g.Valid() && n <= g.finalNode && EntryOk(g, n, e)
    ensures e.score == Best(g, n)
  {
  }

  lemma SameNode(g: Lattice, n: nat, i: nat)
    requires g.Valid() && i < |g.starts| && g.starts[i] == n
    ensures n < g.finalNode && g.First(n) <= i < g.Past(n) && g.End(i) == g.ends[i] && n < g.ends[i]
  {
    g.ArcFacts(i);
  }

  lemma LastArc(g: Lattice, n: nat, i: nat)
    requires g.Valid() && n < g.finalNode && g.First(n) <= i && i + 1 == g.Past(n)
    ensures BestSoFar(g, n, i, ArcScore(i, g.weights[i] + Best(g, g.End(i))))
  {
    hide Lattice.Valid;
    g.Onward(n, i);
  }

  /** Taking one more arc of the same node into account. */
  lemma MoreArc(g: Lattice, n: nat, i: nat, e: ArcScore)
    requires g.Valid() && n < g.finalNode && g.First(n) <= i < g.Past(n) && BestSoFar(g, n, i + 1, e)
    ensures var via := g.weights[i] + Best(g, g.End(i));
            BestSoFar(g, n, i, if via < e.score then ArcScore(i, via) else e)
  {
    hide Lattice.Valid;
    g.Onward(n, i);
  }

  method ReverseViterbiSearch(g: Lattice, bestArcs: array<ArcScore>)
    requires g.Valid() && bestArcs.Length == g.finalNode + 1
    modifies bestArcs
    ensures TableOk(g, bestArcs[..])
  {
    hide EntryOk, BestSoFar, Best, Lattice.Valid;
    SearchStart(g);
    var currentNode: nat := g.finalNode;
    var best := ArcScore(-1, 0.0);
    var i := |g.ends| - 1;
    while i != -1
      invariant -1 <= i < |g.starts| == |g.ends| == |g.weights| && currentNode <= g.finalNode
      invariant BestSoFar(g, currentNode, i + 1, best)
      invariant forall n | currentNode < n <= g.finalNode :: EntryOk(g, n, bestArcs[n])
      decreases i
    {
      SameNode(g, g.starts[i], i);
      if currentNode != g.starts[i] {
        NodeDone(g, currentNode, i + 1, best);
        bestArcs[currentNode] := best;
        EntryScore(g, g.ends[i], bestArcs[g.ends[i]]);
        LastArc(g, g.starts[i], i);
        currentNode := g.starts[i];
        best := ArcScore(i, bestArcs[g.ends[i]].score + g.weights[i]);
      } else {
        EntryScore(g, g.ends[i], bestArcs[g.ends[i]]);
        var pathScore := bestArcs[g.ends[i]].score + g.weights[i];
        MoreArc(g, currentNode, i, best);
        if pathScore < best.score {
          best := ArcScore(i, pathScore);
        }
      }
      i := i - 1;
    }
    NodeDone(g, currentNode, 0, best);
    bestArcs[currentNode] := best;
  }

  // ---------- the best path ----------

  /** The words of a path but for its last arc, skipped words left out. */
  ghost function PathWords(g: Lattice, skip: set<nat>, p: seq<nat>): seq<nat>
    requires g.Valid() && g.Arcs(p)
  {
    if |p| <= 1 then [] else
      assert forall k | 0 <= k < |p[1..]| :: p[1..][k] == p[k+1];
      (if g.words[p[0]] in skip then [] else [g.words[p[0]]]) + PathWords(g, skip, p[1..])
  }

  /** Of a path's words the skipped ones are left out and no others. */
  lemma {:induction false} SkippedLeftOut(g: Lattice, skip: set<nat>, p: seq<nat>, w: nat)
    requires g.Valid() && g.Arcs(p)
    ensures multiset(PathWords(g, skip, p))[w] == if w in skip then 0 else multiset(PathWords(g, {}, p))[w]
  {
    hide Lattice.Valid, PathWords;
    FirstWord(g, skip, p);
    FirstWord(g, {}, p);
    if |p| > 1 {
      SkippedLeftOut(g, skip, p[1..], w);
      OneWord(g.words[p[0]], PathWords(g, skip, p[1..]), w);
      OneWord(g.words[p[0]], PathWords(g, {}, p[1..]), w);
    }
  }

  lemma FirstWord(g: Lattice, skip: set<nat>, p: seq<nat>)
    requires g.Valid() && g.Arcs(p)
    ensures |p| <= 1 ==> PathWords(g, skip, p) == []
    ensures |p| > 1 ==> g.Arcs(p[1..]) && |g.words| == |g.starts|
    ensures |p| > 1 ==>
              PathWords(g, skip, p)
                == if g.words[p[0]] in skip then PathWords(g, skip, p[1..]) else [g.words[p[0]]] + PathWords(g, skip, p[1..])
  {
    if |p| > 1 {
      g.ArcFacts(p[0]);
      assert forall k | 0 <= k < |p[1..]| :: p[1..][k] == p[k+1];
      assert [] + PathWords(g, skip, p[1..]) == PathWords(g, skip, p[1..]);
    }
  }

  lemma OneWord(x: nat, rest: seq<nat>, w: nat)
    ensures multiset([x] + rest)[w] == (if x == w then 1 else 0) + multiset(rest)[w]
  {
  }

  /** Without skipping they are the arcs' words, in order, but for the last. */
  lemma {:induction false} WordAt(g: Lattice, p: seq<nat>, k: nat)
    requires g.Valid() && g.Arcs(p) && k + 1 < |p|
    ensures |g.words| == |g.starts| && |PathWords(g, {}, p)| == |p| - 1 && PathWords(g, {}, p)[k] == g.words[p[k]]
  {
    hide Lattice.Valid;
    g.ArcFacts(p[0]);
    assert forall j | 0 <= j < |p[1..]| :: p[1..][j] == p[j+1];
    if |p| > 2 {
      WordAt(g, p[1..], if k > 0 then k - 1 else 0);
    }
  }

  lemma TableFacts(g: Lattice, table: seq<ArcScore>, n: nat)
    requires g.Valid() && TableOk(g, table) && n < g.finalNode
    ensures |table| == g.finalNode + 1 && EntryOk(g, n, table[n])
    ensures var i := table[n].arc;
            && g.First(n) <= i < g.Past(n) && n < g.End(i) <= g.finalNode
            && g.weights[i] + Best(g, g.End(i)) == Best(g, n)
  {
    assert EntryOk(g, n, table[n]);
    g.Onward(n, table[n].arc);
  }

  /** The path the recorded arcs spell from node n. */
  ghost function Follow(g: Lattice, table: seq<ArcScore>, n: nat): (p: seq<nat>)
    requires g.Valid() && TableOk(g, table) && n <= g.finalNode
    decreases g.finalNode - n
  {
    if n == g.finalNode then [] else
      TableFacts(g, table, n);
      [table[n].arc] + Follow(g, table, g.End(table[n].arc))
  }

  /** That path is complete and has the best score. */
  lemma {:induction false} FollowIsBest(g: Lattice, table: seq<ArcScore>, n: nat)
    requires g.Valid() && TableOk(g, table) && n <= g.finalNode
    ensures var p := Follow(g, table, n); g.IsPath(n, p) && g.Arcs(p) && g.PathScore(p) == Best(g, n)
    decreases g.finalNode - n
  {
    hide Lattice.Valid, BestFrom, TableOk;
    if n < g.finalNode {
      TableFacts(g, table, n);
      var i := table[n].arc;
      FollowIsBest(g, table, g.End(i));
      ConsPath(g, n, i, Follow(g, table, g.End(i)));
    }
  }

  /** Unfolds the words of the followed path by one arc. */
  lemma FollowWords(g: Lattice, table: seq<ArcScore>, skip: set<nat>, n: nat)
    requires g.Valid() && TableOk(g, table) && n < g.finalNode
    ensures g.First(n) <= table[n].arc < g.Past(n)
    ensures var i := table[n].arc;
            && i < |g.ends| == |g.words| && n < g.ends[i] <= g.finalNode
            && g.Arcs(Follow(g, table, n)) && g.Arcs(Follow(g, table, g.ends[i]))
            && PathWords(g, skip, Follow(g, table, n)) ==
               (if g.ends[i] == g.finalNode then [] else
                  (if g.words[i] in skip then [] else [g.words[i]])
                  + PathWords(g, skip, Follow(g, table, g.ends[i])))
  {
    hide TableOk, EntryOk, Best;
    TableFacts(g, table, n);
    var i := table[n].arc;
    FollowIsBest(g, table, n);
    FollowIsBest(g, table, g.End(i));
    assert Follow(g, table, n)[1..] == Follow(g, table, g.ends[i]);
  }

  lemma ArcAt(g: Lattice, table: seq<ArcScore>, n: nat)
    requires g.Valid() && TableOk(g, table) && n < g.finalNode
    ensures |table| == g.finalNode + 1 && 0 <= table[n].arc < |g.ends| == |g.words|
    ensures n < g.ends[table[n].arc] <= g.finalNode
    ensures g.Arcs(Follow(g, table, n))
  {
    hide Follow, PathWords, TableOk;
    TableFacts(g, table, n);
    FollowIsBest(g, table, n);
    FollowWords(g, table, {}, n);
  }

  lemma StartScore(g: Lattice, table: seq<ArcScore>)
    requires g.Valid() && TableOk(g, table)
    ensures |table| == g.finalNode + 1 && g.finalNode > 0 && table[0].score == Best(g, 0)
  {
    assert EntryOk(g, 0, table[0]);
  }

  /** Follows the recorded arcs; skip holds the tag words when tags are skipped. */
  method FindBestPath(g: Lattice, bestArcs: array<ArcScore>, skip: set<nat>)
    returns (bestPath: seq<nat>, score: real)
    requires g.Valid() && TableOk(g, bestArcs[..])
    ensures score == Best(g, 0) && g.Arcs(Follow(g, bestArcs[..], 0)) && g.PathScore(Follow(g, bestArcs[..], 0)) == score
    ensures bestPath == PathWords(g, skip, Follow(g, bestArcs[..], 0))
  {
    hide EntryOk, Best, Follow, PathWords, TableOk, Lattice.Valid, Lattice.Arcs, Lattice.PathScore;
    ghost var table, node := bestArcs[..], 0;
    StartScore(g, table);
    FollowIsBest(g, table, 0);
    ArcAt(g, table, 0);
    ghost var whole := PathWords(g, skip, Follow(g, table, 0));
    var bestArc := bestArcs[0].arc;
    bestPath := [];
    while g.ends[bestArc] != g.finalNode
      invariant 0 <= node < g.finalNode && bestArc == table[node].arc
      invariant 0 <= bestArc < |g.ends| == |g.words| && node < g.ends[bestArc] <= g.finalNode
      invariant g.Arcs(Follow(g, table, node))
      invariant bestPath + PathWords(g, skip, Follow(g, table, node)) == whole
      decreases g.finalNode - node
    {
      FollowWords(g, table, skip, node);
      var word := g.words[bestArc];
      if word !in skip {
        bestPath := bestPath + [word];
      }
      node := g.ends[bestArc];
      ArcAt(g, table, node);
      bestArc := bestArcs[g.ends[bestArc]].arc;
    }
    FollowWords(g, table, skip, node);
    score := bestArcs[0].score;
  }
}
