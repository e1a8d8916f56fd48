/** Edit distance between word sequences. */
module Alignments {

  /** One column of an alignment: a match or substitution, an extra hypothesis word, a missed reference word. */
  datatype Edit = Match(hyp: nat, ref: nat) | Insert(hyp: nat) | Delete(ref: nat)

  function HypOf(a: seq<Edit>): seq<nat> {
    if a == [] then [] else (if a[0].Delete? then [] else [a[0].hyp]) + HypOf(a[1..])
  }

  function RefOf(a: seq<Edit>): seq<nat> {
    if a == [] then [] else (if a[0].Insert? then [] else [a[0].ref]) + RefOf(a[1..])
  }

  /** Errors of one column; inserting a word of the free set is not an error. */
  function EditCost(e: Edit, free: set<nat>): nat {
    match e
    case Match(h, r) => if h == r then 0 else 1
    case Insert(h) => if h in free then 0 else 1
    case Delete(_) => 1
  }

  function Cost(a: seq<Edit>, free: set<nat>): nat {
    if a == [] then 0 else EditCost(a[0], free) + Cost(a[1..], free)
  }

  ghost predicate Aligns(a: seq<Edit>, hyp: seq<nat>, ref: seq<nat>) {
    HypOf(a) == hyp && RefOf(a) == ref
  }

  lemma {:induction false} HypSnoc(a: seq<Edit>, e: Edit)
    ensures HypOf(a + [e]) == HypOf(a) + if e.Delete? then [] else [e.hyp]
  {
    if a == [] {
      assert a + [e] == [e];
    } else {
      HypSnoc(a[1..], e);
      assert (a + [e])[0] == a[0] && (a + [e])[1..] == a[1..] + [e];
    }
  }

  lemma {:induction false} RefSnoc(a: seq<Edit>, e: Edit)
    ensures RefOf(a + [e]) == RefOf(a) + if e.Insert? then [] else [e.ref]
  {
    if a == [] {
      assert a + [e] == [e];
    } else {
      RefSnoc(a[1..], e);
      assert (a + [e])[0] == a[0] && (a + [e])[1..] == a[1..] + [e];
    }
  }

  lemma {:induction false} CostSnoc(a: seq<Edit>, e: Edit, free: set<nat>)
    ensures Cost(a + [e], free) == Cost(a, free) + EditCost(e, free)
  {
    if a == [] {
      assert a + [e] == [e];
    } else {
      CostSnoc(a[1..], e, free);
      assert (a + [e])[0] == a[0] && (a + [e])[1..] == a[1..] + [e];
    }
  }

  /** What one more column adds. */
  lemma Snoc(a: seq<Edit>, e: Edit, free: set<nat>)
    ensures HypOf(a + [e]) == HypOf(a) + if e.Delete? then [] else [e.hyp]
    ensures RefOf(a + [e]) == RefOf(a) + if e.Insert? then [] else [e.ref]
    ensures Cost(a + [e], free) == Cost(a, free) + EditCost(e, free)
  {
    hide *;
    HypSnoc(a, e);
    RefSnoc(a, e);
    CostSnoc(a, e, free);
  }

  function Min(x: nat, y: nat): nat { if y < x then y else x }

  /** Edit distance by the prefixes of both sequences. */
  function Distance(hyp: seq<nat>, ref: seq<nat>): nat
    decreases |hyp| + |ref|
  {
    if hyp == [] then |ref|
    else if ref == [] then |hyp|
    else
      var h, r := hyp[..|hyp|-1], ref[..|ref|-1];
      Min(Min(Distance(h, ref) + 1, Distance(hyp, r) + 1),
          Distance(h, r) + if hyp[|hyp|-1] == ref[|ref|-1] then 0 else 1)
  }

  /** No alignment makes fewer errors than the distance. */
  lemma {:induction false} DistanceIsLeast(a: seq<Edit>, hyp: seq<nat>, ref: seq<nat>)
    requires Aligns(a, hyp, ref)
    ensures Distance(hyp, ref) <= Cost(a, {})
    decreases |a|
  {
    hide Distance;
    if a == [] {
      NoWords();
    }
    if a != [] {
      var front, e := a[..|a|-1], a[|a|-1];
      assert a == front + [e];
      var h, r := HypOf(front), RefOf(front);
      Snoc(front, e, {});
      DistanceIsLeast(front, h, r);
      DistanceSteps(hyp, ref);
      match e {
        case Match(_, _) => assert hyp[..|hyp|-1] == h && ref[..|ref|-1] == r;
        case Insert(_) => assert hyp[..|hyp|-1] == h && ref == r;
        case Delete(_) => assert hyp == h && ref[..|ref|-1] == r;
      }
    }
  }

  /** Each of the three ways to extend a prefix pair bounds the distance. */
  lemma {:induction false} DistanceSteps(hyp: seq<nat>, ref: seq<nat>)
    ensures hyp != [] ==> Distance(hyp, ref) <= Distance(hyp[..|hyp|-1], ref) + 1
    ensures ref != [] ==> Distance(hyp, ref) <= Distance(hyp, ref[..|ref|-1]) + 1
    ensures hyp != [] && ref != [] ==>
      Distance(hyp, ref) <= Distance(hyp[..|hyp|-1], ref[..|ref|-1]) + if hyp[|hyp|-1] == ref[|ref|-1] then 0 else 1
  {
  }

  lemma NoWords()
    ensures Distance([], []) == 0 && HypOf([]) == [] && RefOf([]) == [] && Cost([], {}) == 0
  {
  }

  /** Some last column accounts for the distance. */
  lemma LastColumn(hyp: seq<nat>, ref: seq<nat>) returns (e: Edit)
    requires hyp != [] || ref != []
    ensures e.Delete? || e.Match? ==> ref != [] && e.ref == ref[|ref|-1]
    ensures e.Insert? || e.Match? ==> hyp != [] && e.hyp == hyp[|hyp|-1]
    ensures var h, r := if e.Delete? then hyp else hyp[..|hyp|-1], if e.Insert? then ref else ref[..|ref|-1];
            Distance(hyp, ref) == Distance(h, r) + EditCost(e, {})
  {
    if hyp == [] || (ref != [] && Distance(hyp, ref) == Distance(hyp, ref[..|ref|-1]) + 1) {
      e := Delete(ref[|ref|-1]);
    } else if ref == [] || Distance(hyp, ref) == Distance(hyp[..|hyp|-1], ref) + 1 {
      e := Insert(hyp[|hyp|-1]);
    } else {
      e := Match(hyp[|hyp|-1], ref[|ref|-1]);
    }
  }

  /** Some alignment makes exactly that many. */
  lemma {:induction false} DistanceIsMet(hyp: seq<nat>, ref: seq<nat>) returns (a: seq<Edit>)
    ensures Aligns(a, hyp, ref) && Cost(a, {}) == Distance(hyp, ref)
    decreases |hyp| + |ref|
  {
    hide HypOf, RefOf, Cost, Distance, EditCost;
    if hyp == [] && ref == [] {
      NoWords();
      a := [];
    } else {
      var e := LastColumn(hyp, ref);
      var h, r := if e.Delete? then hyp else hyp[..|hyp|-1], if e.Insert? then ref else ref[..|ref|-1];
      var front := DistanceIsMet(h, r);
      a := front + [e];
      Snoc(front, e, {});
    }
  }

  /** Words shared at the end add no errors. */
  lemma {:induction false} SharedEnd(h: seq<nat>, r: seq<nat>, end: seq<nat>)
    ensures Distance(h + end, r + end) <= Distance(h, r)
  {
    hide Distance;
    if end == [] {
      assert h + end == h && r + end == r;
    } else {
      var rest := end[..|end|-1];
      SharedEnd(h, r, rest);
      DistanceSteps(h + end, r + end);
      assert (h + end)[..|h + end|-1] == h + rest && (r + end)[..|r + end|-1] == r + rest;
    }
  }

  /** No errors exactly between equal sequences. */
  lemma {:induction false} NoErrors(hyp: seq<nat>, ref: seq<nat>)
    ensures Distance(hyp, ref) == 0 <==> hyp == ref
    decreases |hyp|
  {
    if hyp == ref {
      SharedEnd([], [], ref);
      assert [] + ref == ref;
    } else if hyp != [] && ref != [] {
      var h, r := hyp[..|hyp|-1], ref[..|ref|-1];
      NoErrors(h, r);
      assert hyp == h + [hyp[|hyp|-1]] && ref == r + [ref[|ref|-1]];
    }
  }

  /** A word too many, a word too few and a wrong word are one error each, wherever they stand. */
  lemma OneError(front: seq<nat>, x: nat, y: nat, end: seq<nat>)
    ensures Distance(front + [x] + end, front + end) == 1 && Distance(front + end, front + [x] + end) == 1
    ensures x != y ==> Distance(front + [x] + end, front + [y] + end) == 1
  {
    hide Distance;
    var more, other := front + [x], front + [y];
    assert more[..|more|-1] == front && other[..|other|-1] == front;
    NoErrors(front, front);
    DistanceSteps(more, front);
    DistanceSteps(front, more);
    DistanceSteps(more, other);
    SharedEnd(more, front, end);
    SharedEnd(front, more, end);
    SharedEnd(more, other, end);
    NoErrors(more + end, front + end);
    NoErrors(front + end, more + end);
    NoErrors(more + end, other + end);
    assert |more + end| == |front + end| + 1;
    assert (more + end)[|front|] == x && (other + end)[|front|] == y;
  }

  /** The single-row loop: row cell j holds the distance to the first j reference words. */
  method WordErrors(hyp: seq<nat>, ref: seq<nat>) returns (errors: nat)
    ensures forall a | Aligns(a, hyp, ref) :: errors <= Cost(a, {})
    ensures exists a :: Aligns(a, hyp, ref) && errors == Cost(a, {})
    ensures errors == Distance(hyp, ref)
  {
    errors := EditRow(hyp, ref);
    forall a | Aligns(a, hyp, ref) ensures errors <= Cost(a, {}) {
      DistanceIsLeast(a, hyp, ref);
    }
    ghost var a := DistanceIsMet(hyp, ref);
  }

  /** Distance between the first i hypothesis words and the first j reference words. */
  ghost function Cell(hyp: seq<nat>, ref: seq<nat>, i: nat, j: nat): nat
    requires i <= |hyp| && j <= |ref|
  {
    Distance(hyp[..i], ref[..j])
  }

  lemma CellStep(hyp: seq<nat>, ref: seq<nat>, i: nat, j: nat)
    requires i < |hyp| && j < |ref|
    ensures Cell(hyp, ref, i + 1, j + 1)
         == Min(Min(Cell(hyp, ref, i, j + 1) + 1, Cell(hyp, ref, i + 1, j) + 1),
                Cell(hyp, ref, i, j) + if hyp[i] == ref[j] then 0 else 1)
  {
    assert hyp[..i+1][..i] == hyp[..i] && ref[..j+1][..j] == ref[..j];
  }

  lemma CellEdges(hyp: seq<nat>, ref: seq<nat>)
    ensures forall j | 0 <= j <= |ref| :: Cell(hyp, ref, 0, j) == j
    ensures forall i | 0 <= i <= |hyp| :: Cell(hyp, ref, i, 0) == i
    ensures Cell(hyp, ref, |hyp|, |ref|) == Distance(hyp, ref)
  {
    assert hyp[..|hyp|] == hyp && ref[..|ref|] == ref;
  }

  method EditRow(hyp: seq<nat>, ref: seq<nat>) returns (errors: nat)
    ensures errors == Distance(hyp, ref)
  {
    if |hyp| == 0 {
      return |ref|;
    }
    if |ref| == 0 {
      return |hyp|;
    }
    CellEdges(hyp, ref);
    errors := FillRows(hyp, ref);
  }

  method FillRows(hyp: seq<nat>, ref: seq<nat>) returns (errors: nat)
    ensures errors == Cell(hyp, ref, |hyp|, |ref|)
  {
    hide *;
    CellEdges(hyp, ref);
    var nodeScores := new nat[|ref| + 1](j => j);
    for iHyp := 0 to |hyp|
      invariant forall j | 0 <= j <= |ref| :: nodeScores[j] == Cell(hyp, ref, iHyp, j)
    {
      var prevScore := iHyp;
      nodeScores[0] := iHyp + 1;
      for iRef := 0 to |ref|
        invariant prevScore == Cell(hyp, ref, iHyp, iRef)
        invariant forall j | 0 <= j <= iRef :: nodeScores[j] == Cell(hyp, ref, iHyp + 1, j)
        invariant forall j | iRef < j <= |ref| :: nodeScores[j] == Cell(hyp, ref, iHyp, j)
      {
        CellStep(hyp, ref, iHyp, iRef);
        var subScore := prevScore + if hyp[iHyp] == ref[iRef] then 0 else 1;
        prevScore := nodeScores[iRef + 1];
        nodeScores[iRef + 1] := Min(Min(prevScore + 1, nodeScores[iRef] + 1), subScore);
      }
    }
    errors := nodeScores[|ref|];
  }
}
