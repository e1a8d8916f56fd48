/** Word lattices and all their paths. */
module Lattices {

  /** Parallel arc vectors, sorted by start node; arcs of node n are nodeArcs[n] .. nodeArcs[n+1]-1. */
  datatype Lattice = Lattice(finalNode: nat, starts: seq<nat>, ends: seq<nat>, words: seq<nat>,
                             weights: seq<real>, nodeArcs: seq<nat>)
  {
    ghost predicate Shaped() {
      && finalNode > 0
      && |ends| == |words| == |weights| == |starts|
      && |nodeArcs| == finalNode + 2
    }

    /** Node n has outgoing arcs, and they are the ones its range of arc indices says. */
    ghost predicate NodeOk(n: nat)
      requires Shaped() && n < finalNode
    {
      && nodeArcs[n] < nodeArcs[n+1] <= |starts|
      && forall i | nodeArcs[n] <= i < nodeArcs[n+1] :: starts[i] == n
    }

    /** Arc i leads forward and is listed under its start node. */
    ghost predicate ArcOk(i: nat)
      requires Shaped() && i < |starts|
    {
      && starts[i] < ends[i] <= finalNode
      && nodeArcs[starts[i]] <= i < nodeArcs[starts[i]+1]
    }

    ghost predicate Valid() {
      && Shaped()
      && nodeArcs[0] == 0 && nodeArcs[finalNode] == nodeArcs[finalNode + 1] == |starts|
      && (forall n | 0 <= n < finalNode :: NodeOk(n))
      && forall i | 0 <= i < |starts| :: ArcOk(i)
    }

    lemma NodeFacts(n: nat)
      requires Valid() && n < finalNode
      ensures Shaped() && NodeOk(n)
    {
    }

    lemma ArcFacts(i: nat)
      requires Valid() && i < |starts|
      ensures Shaped() && ArcOk(i)
    {
    }

    /** The arcs of node n, from First(n) up to but not including Past(n). */
    ghost function First(n: nat): nat
      requires Valid() && n < finalNode
    {
      nodeArcs[n]
    }

    ghost function Past(n: nat): (r: nat)
      requires Valid() && n < finalNode
      ensures First(n) < r <= |starts|
    {
      NodeFacts(n);
      nodeArcs[n+1]
    }

    /** Where arc i leads. */
    ghost function End(i: nat): (r: nat)
      requires Valid() && i < |starts|
      ensures r <= finalNode
    {
      ArcFacts(i);
      ends[i]
    }

    /** p is a sequence of arcs leading from node n to the final node. */
    ghost predicate IsPath(n: nat, p: seq<nat>)
      requires Valid()
      decreases |p|
    {
      if p == [] then n == finalNode
      else n < finalNode && First(n) <= p[0] < Past(n) && IsPath(End(p[0]), p[1..])
    }

    ghost predicate Arcs(p: seq<nat>) {
      forall k | 0 <= k < |p| :: p[k] < |starts|
    }

    /** Total weight of a sequence of arcs. */
    ghost function PathScore(p: seq<nat>): real
      requires Valid() && Arcs(p)
    {
      if p == [] then 0.0 else
        assert forall k | 0 <= k < |p[1..]| :: p[1..][k] == p[k+1];
        weights[p[0]] + PathScore(p[1..])
    }

    lemma {:induction false} PathArcs(n: nat, p: seq<nat>)
      requires Valid() && IsPath(n, p)
      ensures Arcs(p)
      decreases |p|
    {
      hide Valid;
      if p != [] {
        PathArcs(End(p[0]), p[1..]);
        assert forall k | 0 < k < |p| :: p[k] == p[1..][k-1];
      }
    }

    /** An arc of node n leads to a later node. */
    lemma Onward(n: nat, i: nat)
      requires Valid() && n < finalNode && First(n) <= i < Past(n)
      ensures n < End(i) <= finalNode
    {
      NodeFacts(n);
      ArcFacts(i);
    }

    /** Every path from node n to the final node, arc by arc. */
    ghost function AllPaths(n: nat): seq<seq<nat>>
      requires Valid() && n <= finalNode
      decreases finalNode - n, 1, 0
    {
      if n == finalNode then [[]] else ArcPaths(n, Past(n))
    }

    /** The paths from n whose first arc is below hi. */
    ghost function ArcPaths(n: nat, hi: nat): seq<seq<nat>>
      requires Valid() && n < finalNode && First(n) <= hi <= Past(n)
      decreases finalNode - n, 0, hi
    {
      if hi == First(n) then []
      else
        Onward(n, hi - 1);
        ArcPaths(n, hi - 1) + Prepend(hi - 1, AllPaths(End(hi - 1)))
    }
  }

  function Prepend(i: nat, paths: seq<seq<nat>>): (r: seq<seq<nat>>)
    ensures |r| == |paths| && forall k | 0 <= k < |paths| :: r[k] == [i] + paths[k]
  {
    if paths == [] then [] else [[i] + paths[0]] + Prepend(i, paths[1..])
  }

  // ---------- AllPaths lists exactly the paths, each once ----------

  lemma {:induction false} AllPathsSound(g: Lattice, n: nat, p: seq<nat>)
    requires g.Valid() && n <= g.finalNode
    ensures p in g.AllPaths(n) ==> g.IsPath(n, p)
    decreases g.finalNode - n, 1, 0
  {
    if n < g.finalNode {
      ArcPathsSound(g, n, g.Past(n), p);
    }
  }

  lemma {:induction false} ArcPathsSound(g: Lattice, n: nat, hi: nat, p: seq<nat>)
    requires g.Valid() && n < g.finalNode && g.First(n) <= hi <= g.Past(n)
    ensures p in g.ArcPaths(n, hi) ==> g.IsPath(n, p) && p != [] && p[0] < hi
    decreases g.finalNode - n, 0, hi
  {
    hide Lattice.Valid;
    if hi > g.First(n) {
      g.Onward(n, hi - 1);
      ArcPathsSound(g, n, hi - 1, p);
      var tails := g.AllPaths(g.End(hi - 1));
      if p in Prepend(hi - 1, tails) {
        var k :| 0 <= k < |tails| && p == [hi-1] + tails[k];
        assert p[1..] == tails[k];
        AllPathsSound(g, g.End(hi - 1), p[1..]);
      }
    }
  }

  lemma {:induction false} AllPathsComplete(g: Lattice, n: nat, p: seq<nat>)
    requires g.Valid() && g.IsPath(n, p) && n <= g.finalNode
    ensures p in g.AllPaths(n)
    decreases g.finalNode - n, 1, 0
  {
    if p != [] {
      ArcPathsComplete(g, n, g.Past(n), p);
    }
  }

  lemma {:induction false} ArcPathsComplete(g: Lattice, n: nat, hi: nat, p: seq<nat>)
    requires g.Valid() && n < g.finalNode && g.IsPath(n, p) && p != [] && p[0] < hi
    requires g.First(n) <= hi <= g.Past(n)
    ensures p in g.ArcPaths(n, hi)
    decreases g.finalNode - n, 0, hi
  {
    hide Lattice.Valid;
    if p[0] < hi - 1 {
      ArcPathsComplete(g, n, hi - 1, p);
    } else {
      g.Onward(n, hi - 1);
      var tails := g.AllPaths(g.End(hi - 1));
      AllPathsComplete(g, g.End(hi - 1), p[1..]);
      var k :| 0 <= k < |tails| && tails[k] == p[1..];
      assert Prepend(hi - 1, tails)[k] == p;
    }
  }

  ghost predicate NoRepeat(paths: seq<seq<nat>>) {
    forall i, j | 0 <= i < j < |paths| :: paths[i] != paths[j]
  }

  lemma {:induction false} AllPathsDistinct(g: Lattice, n: nat)
    requires g.Valid() && n <= g.finalNode
    ensures NoRepeat(g.AllPaths(n))
    decreases g.finalNode - n, 1, 0
  {
    if n < g.finalNode {
      ArcPathsDistinct(g, n, g.Past(n));
    }
  }

  lemma {:induction false} ArcPathsDistinct(g: Lattice, n: nat, hi: nat)
    requires g.Valid() && n < g.finalNode && g.First(n) <= hi <= g.Past(n)
    ensures NoRepeat(g.ArcPaths(n, hi))
    decreases g.finalNode - n, 0, hi
  {
    hide Lattice.Valid;
    if hi > g.First(n) {
      g.Onward(n, hi - 1);
      ArcPathsDistinct(g, n, hi - 1);
      AllPathsDistinct(g, g.End(hi - 1));
      var before, tails := g.ArcPaths(n, hi - 1), g.AllPaths(g.End(hi - 1));
      var after := Prepend(hi - 1, tails);
      forall i | 0 <= i < |before| ensures before[i] != [] && before[i][0] < hi - 1 {
        ArcPathsSound(g, n, hi - 1, before[i]);
      }
      forall i, j | 0 <= i < j < |after| ensures after[i] != after[j] {
        assert after[i][1..] == tails[i] && after[j][1..] == tails[j];
      }
      DistinctAppend(before, after, hi - 1);
    }
  }

  lemma DistinctAppend(before: seq<seq<nat>>, after: seq<seq<nat>>, arc: nat)
    requires NoRepeat(before) && NoRepeat(after)
    requires forall i | 0 <= i < |before| :: before[i] != [] && before[i][0] < arc
    requires forall i | 0 <= i < |after| :: after[i] != [] && after[i][0] == arc
    ensures NoRepeat(before + after)
  {
  }

  /** The listing is exact: p occurs in it once if it is a path from n, and not at all otherwise. */
  lemma AllPathsExact(g: Lattice, n: nat, p: seq<nat>)
    requires g.Valid() && n <= g.finalNode
    ensures multiset(g.AllPaths(n))[p] == if g.IsPath(n, p) then 1 else 0
  {
    AllPathsSound(g, n, p);
    AllPathsDistinct(g, n);
    var paths := g.AllPaths(n);
    if g.IsPath(n, p) {
      AllPathsComplete(g, n, p);
      OnceOnly(paths, p);
    } else {
      assert p !in paths;
    }
  }

  lemma {:induction false} OnceOnly(paths: seq<seq<nat>>, p: seq<nat>)
    requires NoRepeat(paths) && p in paths
    ensures multiset(paths)[p] == 1
  {
    assert paths == [paths[0]] + paths[1..];
    if paths[0] == p {
      assert p !in paths[1..];
    } else {
      OnceOnly(paths[1..], p);
    }
  }
}
