/** How UnorderedElementsAre turns a maximum matching into a verdict. */
module FindPairing {
  import opened Graphs
  import opened MatchMatrices
  import opened MaxBipartiteMatch

  datatype Require = Superset | Subset | ExactMatch {
    /** The flag bit for "every matcher is met". */
    predicate EveryMatcher() {
      Superset? || ExactMatch?
    }

    /** The flag bit for "every element is used". */
    predicate EveryElement() {
      Subset? || ExactMatch?
    }
  }

  /** `m` pairs elements with matchers that accept them, and leaves out no matcher, unless a subset is asked for,
      and no element, unless a superset is. */
  ghost predicate Pairing(g: Graph, flags: Require, m: set<(nat, nat)>) {
    && IsMatching(g, m)
    && (!flags.Subset? ==> Rights(m) == Below(g.rhs))
    && (!flags.Superset? ==> Lefts(m) == Below(g.lhs))
  }

  lemma MaximumDecidesPairing(g: Graph, flags: Require, best: set<(nat, nat)>)
    requires InRange(g) && IsMaximum(g, best)
    ensures (exists m :: Pairing(g, flags, m)) <==>
            (flags.EveryMatcher() ==> |best| >= g.rhs) && (flags.EveryElement() ==> |best| >= g.lhs)
  {
    CoverageBySize(g, best);
    forall m | IsMatching(g, m) ensures |m| <= |best| && (Pairing(g, flags, m) ==>
      (flags.EveryMatcher() ==> |m| == g.rhs) && (flags.EveryElement() ==> |m| == g.lhs))
    {
      CoverageBySize(g, m);
    }
    if (flags.EveryMatcher() ==> |best| >= g.rhs) && (flags.EveryElement() ==> |best| >= g.lhs) {
      assert Pairing(g, flags, best);
    }
  }

  lemma ListSize(pairs: seq<(nat, nat)>)
    requires forall i, j | 0 <= i < j < |pairs| :: pairs[i].0 < pairs[j].0
    ensures |Edges(pairs)| == |pairs|
  {
    if pairs != [] {
      var init, last := pairs[..|pairs| - 1], pairs[|pairs| - 1];
      ListSize(init);
      assert pairs == init + [last];
      assert Edges(pairs) == Edges(init) + {last};
      assert last !in Edges(init);
    }
  }

  method FindPairing(matrix: MatchMatrix, flags: Require) returns (ok: bool)
    requires matrix.Valid()
    ensures ok <==> exists m :: Pairing(matrix.Contents(), flags, m)
  {
    var state := new MaxBipartiteMatchState(matrix);
    var matches := state.Compute();
    ListSize(matches);
    MaximumDecidesPairing(matrix.Contents(), flags, Edges(matches));
    var maxFlow := |matches|;
    if flags.EveryMatcher() && maxFlow < matrix.rhsSize { return false; }
    if flags.EveryElement() && maxFlow < matrix.lhsSize { return false; }
    return true;
  }

  /** Nobody whom the flags name is without a candidate. */
  ghost predicate NobodyHopeless(g: Graph, flags: Require) {
    && (!flags.Subset? ==> Rights(g.edges) == Below(g.rhs))
    && (!flags.Superset? ==> Lefts(g.edges) == Below(g.lhs))
  }

  /** The edges that come before (ilhs, irhs) in lhs-major order. */
  ghost function Visited(g: Graph, ilhs: nat, irhs: nat): set<(nat, nat)> {
    set e <- g.edges | e.0 < ilhs || (e.0 == ilhs && e.1 < irhs)
  }

  /** The vectors mark the ends of the edges in `visited`. */
  ghost predicate Tallied(g: Graph, visited: set<(nat, nat)>, elementMatched: seq<bool>, matcherMatched: seq<bool>) {
    && |elementMatched| == g.lhs
    && |matcherMatched| == g.rhs
    && (forall l: nat | l < g.lhs :: elementMatched[l] <==> l in Lefts(visited))
    && (forall r: nat | r < g.rhs :: matcherMatched[r] <==> r in Rights(visited))
  }

  lemma TallyNext(g: Graph, ilhs: nat, irhs: nat, elementMatched: seq<bool>, matcherMatched: seq<bool>)
    requires ilhs < g.lhs && irhs < g.rhs
    requires Tallied(g, Visited(g, ilhs, irhs), elementMatched, matcherMatched)
    ensures var matched := (ilhs, irhs) in g.edges;
            Tallied(g, Visited(g, ilhs, irhs + 1), elementMatched[ilhs := elementMatched[ilhs] || matched],
                    matcherMatched[irhs := matcherMatched[irhs] || matched])
  {
    var before, more := Visited(g, ilhs, irhs), if (ilhs, irhs) in g.edges then {(ilhs, irhs)} else {};
    assert Visited(g, ilhs, irhs + 1) == before + more;
    assert Lefts(before + more) == Lefts(before) + Lefts(more);
    assert Rights(before + more) == Rights(before) + Rights(more);
  }

  lemma VisitRows(g: Graph, ilhs: nat)
    requires InRange(g)
    ensures Visited(g, 0, 0) == {}
    ensures Visited(g, ilhs, g.rhs) == Visited(g, ilhs + 1, 0)
    ensures Visited(g, g.lhs, 0) == g.edges
  {}

  predicate AllSet(v: seq<bool>, n: nat) {
    n <= |v| && forall i | 0 <= i < n :: v[i]
  }

  lemma TallyVerdict(g: Graph, elementMatched: seq<bool>, matcherMatched: seq<bool>)
    requires InRange(g) && Tallied(g, g.edges, elementMatched, matcherMatched)
    ensures Rights(g.edges) == Below(g.rhs) <==> AllSet(matcherMatched, |matcherMatched|)
    ensures Lefts(g.edges) == Below(g.lhs) <==> AllSet(elementMatched, |elementMatched|)
  {
    assert Rights(g.edges) <= Below(g.rhs) && Lefts(g.edges) <= Below(g.lhs);
  }

  /** The first half of VerifyMatchMatrix. */
  method TallyMatrix(matrix: MatchMatrix, ghost g: Graph) returns (elementMatched: seq<bool>, matcherMatched: seq<bool>)
    requires matrix.Holds(g)
    ensures Rights(g.edges) == Below(g.rhs) <==> AllSet(matcherMatched, |matcherMatched|)
    ensures Lefts(g.edges) == Below(g.lhs) <==> AllSet(elementMatched, |elementMatched|)
  {
    elementMatched := seq(matrix.lhsSize, _ => false);
    matcherMatched := seq(matrix.rhsSize, _ => false);
    VisitRows(g, 0);
    for ilhs := 0 to matrix.lhsSize
      invariant Tallied(g, Visited(g, ilhs, 0), elementMatched, matcherMatched)
    {
      for irhs := 0 to matrix.rhsSize
        invariant Tallied(g, Visited(g, ilhs, irhs), elementMatched, matcherMatched)
      {
        TallyNext(g, ilhs, irhs, elementMatched, matcherMatched);
        var matched := matrix.HasEdge(ilhs, irhs);
        elementMatched := elementMatched[ilhs := elementMatched[ilhs] || matched];
        matcherMatched := matcherMatched[irhs := matcherMatched[irhs] || matched];
      }
      VisitRows(g, ilhs);
    }
    VisitRows(g, g.lhs);
    TallyVerdict(g, elementMatched, matcherMatched);
  }

  method VerifyMatchMatrix(matrix: MatchMatrix, ghost g: Graph, flags: Require) returns (ok: bool)
    requires matrix.Holds(g)
    ensures ok <==> NobodyHopeless(g, flags)
  {
    var elementMatched, matcherMatched := TallyMatrix(matrix, g);
    ok := true;
    if flags.EveryMatcher() {
      ok := FindUnmatched(matcherMatched, ok);
    }
    if flags.EveryElement() {
      ok := FindUnmatched(elementMatched, ok);
    }
  }

  method FindUnmatched(matched: seq<bool>, before: bool) returns (ok: bool)
    ensures ok <==> before && AllSet(matched, |matched|)
  {
    ok := before;
    for i := 0 to |matched|
      invariant ok <==> before && AllSet(matched, i)
    {
      if matched[i] { continue; }
      ok := false;
    }
  }

  /** Rejecting the hopeless first never changes the verdict. */
  lemma PairingNeedsCandidates(g: Graph, flags: Require, m: set<(nat, nat)>)
    requires InRange(g) && Pairing(g, flags, m)
    ensures NobodyHopeless(g, flags)
  {
    assert Rights(m) <= Rights(g.edges) && Lefts(m) <= Lefts(g.edges);
  }

  method MatchAndExplain(matrix: MatchMatrix, flags: Require) returns (ok: bool)
    requires matrix.Valid()
    ensures ok <==> exists m :: Pairing(matrix.Contents(), flags, m)
  {
    ghost var g := matrix.Contents();
    forall m | Pairing(g, flags, m)
      ensures NobodyHopeless(g, flags) && (flags.ExactMatch? ==> g.lhs == g.rhs)
    {
      PairingNeedsCandidates(g, flags, m);
      CoverageBySize(g, m);
    }
    if matrix.lhsSize == 0 && matrix.rhsSize == 0 {
      assert Pairing(g, flags, {});
      return true;
    }
    if flags.ExactMatch? && matrix.lhsSize != matrix.rhsSize {
      return false;
    }
    ok := VerifyMatchMatrix(matrix, g, flags);
    if ok {
      ok := FindPairing(matrix, flags);
    }
  }
}
