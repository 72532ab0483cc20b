/** The augmenting-path search behind UnorderedElementsAre. */
module MaxBipartiteMatch {
  import opened Collections
  import opened Graphs
  import opened MatchMatrices

  /** The value of a node that carries no flow. */
  const UNUSED := -1

  /** Elements of both vectors are UNUSED or point at each other along an edge of the graph. */
  ghost predicate MutuallyReferent(g: Graph, left: seq<int>, right: seq<int>) {
    && |left| == g.lhs
    && |right| == g.rhs
    && (forall l: nat | l < |left| && left[l] != UNUSED ::
          0 <= left[l] < |right| && right[left[l]] == l && (l, left[l]) in g.edges)
    && (forall r: nat | r < |right| && right[r] != UNUSED ::
          0 <= right[r] < |left| && left[right[r]] == r)
  }

  /** `right` with node `r`, if it is one, taken out of the flow. */
  ghost function Released(right: seq<int>, r: int): (s: seq<int>)
    requires r == UNUSED || 0 <= r < |right|
    ensures |s| == |right|
  {
    if r == UNUSED then right else right[r := UNUSED]
  }

  /** Every edge that leaves `l` ends in `nodes`. */
  ghost predicate LeadsInto(g: Graph, l: int, nodes: set<nat>) {
    forall r: nat | r < g.rhs && l >= 0 && (l, r) in g.edges :: r in nodes
  }

  /** A set of right nodes that a path through the residual graph cannot leave: all carry flow, and
      the left nodes that feed them lead nowhere else. */
  ghost predicate Trapped(g: Graph, right: seq<int>, nodes: set<nat>) {
    forall r <- nodes :: r < |right| && right[r] != UNUSED && LeadsInto(g, right[r], nodes)
  }

  /** The right nodes that a search has marked. */
  ghost function Marked(seen: seq<bool>): set<nat> {
    set r: nat | r < |seen| && seen[r]
  }

  /** A search from `ilhs` that started with the nodes `before` marked and ended with `after` marked
      has looked at everything within its reach and found no free right node. */
  ghost predicate Exhausted(g: Graph, right: seq<int>, ilhs: int, before: set<nat>, after: set<nat>) {
    && LeadsInto(g, ilhs, after)
    && forall r <- after - before :: r < |right| && right[r] != UNUSED && LeadsInto(g, right[r], after)
  }

  /** The same for a search that has so far tried the right nodes below `n` only. */
  ghost predicate Searched(g: Graph, right: seq<int>, ilhs: int, n: nat, before: set<nat>, marked: set<nat>) {
    && before <= marked
    && (forall r: nat | r < n && ilhs >= 0 && (ilhs, r) in g.edges :: r in marked)
    && forall r <- marked - before :: r < |right| && right[r] != UNUSED && LeadsInto(g, right[r], marked)
  }

  /** A path from left node `l` to an unused right node: each right node of `path` but the last is
      left through the left node that feeds it. */
  ghost predicate AugmentingPath(g: Graph, right: seq<int>, l: int, path: seq<nat>)
    decreases |path|
  {
    && 0 < |path|
    && l >= 0
    && path[0] < |right|
    && (l, path[0]) in g.edges
    && (if |path| == 1 then right[path[0]] == UNUSED else AugmentingPath(g, right, right[path[0]], path[1..]))
  }

  /** The pairs that the vectors stand for. */
  ghost function Flow(left: seq<int>): (m: set<(nat, nat)>) {
    FlowBelow(left, |left|)
  }

  ghost function FlowBelow(left: seq<int>, n: nat): (m: set<(nat, nat)>) {
    set l: nat | l < n && l < |left| && left[l] >= 0 :: (l, left[l] as nat)
  }

  lemma FlowStep(left: seq<int>, n: nat)
    requires n < |left|
    ensures FlowBelow(left, n + 1) == FlowBelow(left, n) + if left[n] >= 0 then {(n, left[n] as nat)} else {}
  {}

  /** Certificate that no matching of the first `n` left nodes beats `left`: a trapped set that
      catches every unmatched one of them, and every one matched into the set. */
  ghost predicate Certifies(g: Graph, left: seq<int>, right: seq<int>, n: nat, trap: set<nat>) {
    && Trapped(g, right, trap)
    && forall l: nat | l < n <= |left| && (left[l] == UNUSED || left[l] in trap) :: LeadsInto(g, l, trap)
  }

  lemma {:induction false} ExhaustedMeansNoPath(g: Graph, right: seq<int>, l: int, after: set<nat>, path: seq<nat>)
    requires |right| == g.rhs
    requires LeadsInto(g, l, after)
    requires forall r <- after :: r < |right| && right[r] != UNUSED && LeadsInto(g, right[r], after)
    ensures !AugmentingPath(g, right, l, path)
    decreases |path|
  {
    if |path| > 1 && AugmentingPath(g, right, l, path) {
      ExhaustedMeansNoPath(g, right, right[path[0]], after, path[1..]);
    }
  }

  /** So a search that started with nothing marked and failed has shown that no path exists. */
  lemma FailedSearchMeansNoPath(g: Graph, right: seq<int>, ilhs: nat, after: set<nat>)
    requires |right| == g.rhs && Exhausted(g, right, ilhs, {}, after)
    ensures forall path :: !AugmentingPath(g, right, ilhs, path)
  {
    forall path ensures !AugmentingPath(g, right, ilhs, path) {
      ExhaustedMeansNoPath(g, right, ilhs, after, path);
    }
  }

  lemma FlowIsMatching(g: Graph, left: seq<int>, right: seq<int>)
    requires MutuallyReferent(g, left, right)
    ensures IsMatching(g, Flow(left))
  {}

  /** A certified flow is a maximum matching: every edge of another matching is charged to a
      different edge of the flow, on its right end when that is trapped and on its left end otherwise. */
  lemma CertifiedIsMaximum(g: Graph, left: seq<int>, right: seq<int>, trap: set<nat>)
    requires InRange(g) && MutuallyReferent(g, left, right) && Certifies(g, left, right, g.lhs, trap)
    ensures IsMaximum(g, Flow(left))
  {
    FlowIsMatching(g, left, right);
    var m := Flow(left);
    forall other | IsMatching(g, other) ensures |other| <= |m| {
      var charge := map e: (nat, nat) | e in other ::
        if e.1 in trap then (right[e.1] as nat, e.1) else (e.0, left[e.0] as nat);
      InjectionBound(other, m, charge);
    }
  }

  /** What a successful search from `ilhs` does to the vectors: it adds `ilhs` to the matched left
      nodes, unmatches none, and keeps away from marked and from trapped right nodes. A node that fed
      the right node `left0[ilhs]` has left it, and the caller is about to take that node over. */
  ghost predicate Augmented(g: Graph, left0: seq<int>, right0: seq<int>, left: seq<int>, right: seq<int>,
                            before: set<nat>, ilhs: nat, trap: set<nat>)
  {
    && |left0| == |left| == g.lhs
    && |right0| == |right| == g.rhs
    && ilhs < g.lhs
    && (left0[ilhs] == UNUSED || 0 <= left0[ilhs] < g.rhs)
    && MutuallyReferent(g, left, Released(right, left0[ilhs]))
    && 0 <= left[ilhs] < g.rhs
    && left[ilhs] !in before && left[ilhs] !in trap
    && (forall r: nat {:trigger right[r]} | r < g.rhs && (r in before || r in trap) :: right[r] == right0[r])
    && (forall l: nat | l < g.lhs && l != ilhs && left[l] != left0[l] ::
          && left0[l] != UNUSED && left0[l] !in before && left0[l] !in trap
          && left[l] != UNUSED && left[l] !in trap)
  }

  /** The left nodes that carry flow. */
  ghost function MatchedLefts(left: seq<int>): set<nat> {
    set l: nat | l < |left| && left[l] != UNUSED
  }

  /** So a successful search from an unmatched node matches just that one in addition. */
  lemma AugmentedMatchesOneMore(g: Graph, left0: seq<int>, right0: seq<int>, left: seq<int>, right: seq<int>,
                                before: set<nat>, ilhs: nat, trap: set<nat>)
    requires Augmented(g, left0, right0, left, right, before, ilhs, trap) && left0[ilhs] == UNUSED
    ensures MutuallyReferent(g, left, right)
    ensures MatchedLefts(left) == MatchedLefts(left0) + {ilhs} && ilhs !in MatchedLefts(left0)
  {
    forall l: nat | l < g.lhs ensures l in MatchedLefts(left) <==> l in MatchedLefts(left0) + {ilhs} {}
  }

  /** The search through right node `r` has failed. */
  lemma DeadEnd(g: Graph, right: seq<int>, ilhs: nat, r: nat, before: set<nat>, marked: set<nat>, after: set<nat>)
    requires Searched(g, right, ilhs, r, before, marked)
    requires r < |right| && right[r] != UNUSED
    requires marked + {r} <= after && Exhausted(g, right, right[r], marked + {r}, after)
    ensures Searched(g, right, ilhs, r + 1, before, after)
  {}

  /** Taking over the free right node `r`. */
  lemma TakeFree(g: Graph, left: seq<int>, right: seq<int>, before: set<nat>, ilhs: nat, r: nat, trap: set<nat>)
    requires MutuallyReferent(g, left, right) && ilhs < g.lhs && r < g.rhs && (ilhs, r) in g.edges
    requires left[ilhs] == UNUSED || left[ilhs] in before
    requires r !in before && right[r] == UNUSED
    requires Trapped(g, right, trap)
    ensures Augmented(g, left, right, left[ilhs := r], right[r := ilhs], before, ilhs, trap)
  {}

  /** Taking over the right node `r` from the left node that fed it, once that has moved on. */
  lemma TakeOver(g: Graph, left0: seq<int>, right0: seq<int>, left: seq<int>, right: seq<int>,
                 before: set<nat>, ilhs: nat, r: nat, trap: set<nat>)
    requires MutuallyReferent(g, left0, right0) && ilhs < g.lhs && r < g.rhs && (ilhs, r) in g.edges
    requires left0[ilhs] == UNUSED || left0[ilhs] in before
    requires r !in before && right0[r] != UNUSED
    requires Trapped(g, right0, trap)
    requires Augmented(g, left0, right0, left, right, before + {r}, right0[r], trap)
    ensures Augmented(g, left0, right0, left[ilhs := r], right[r := ilhs], before, ilhs, trap)
  {
    assert r !in trap;
    assert left[ilhs] == left0[ilhs];
    var left1, right1 := left[ilhs := r], right[r := ilhs];
    var a, b := Released(right, r), Released(right1, left0[ilhs]);
    assert forall k: nat | k < g.rhs && k != r && k != left0[ilhs] :: b[k] == a[k];
    assert MutuallyReferent(g, left1, b);
  }

  /** A successful search keeps the certificate: it never touches the trap. */
  lemma CertifyMatched(g: Graph, left0: seq<int>, right0: seq<int>, left: seq<int>, right: seq<int>, n: nat, trap: set<nat>)
    requires n < g.lhs && MutuallyReferent(g, left0, right0) && left0[n] == UNUSED
    requires Certifies(g, left0, right0, n, trap)
    requires Augmented(g, left0, right0, left, right, {}, n, trap)
    ensures Certifies(g, left, right, n + 1, trap)
  {}

  /** A failed search extends it by the nodes that the search has marked. */
  lemma CertifyUnmatched(g: Graph, left: seq<int>, right: seq<int>, n: nat, trap: set<nat>, marked: set<nat>)
    requires MutuallyReferent(g, left, right)
    requires Certifies(g, left, right, n, trap)
    requires Exhausted(g, right, n, {}, marked)
    ensures Certifies(g, left, right, n + 1, trap + marked)
  {}

  class MaxBipartiteMatchState {
    const graph: MatchMatrix
    ghost const g: Graph  // what `graph` holds
    var left: seq<int>
    var right: seq<int>

    ghost predicate Valid()
      reads this, graph.matched
    {
      graph.Holds(g) && MutuallyReferent(g, left, right)
    }

    constructor (graph: MatchMatrix)
      requires graph.Valid()
      ensures Valid() && this.graph == graph && g == graph.Contents()
      ensures forall l | 0 <= l < |left| :: left[l] == UNUSED
      ensures forall r | 0 <= r < |right| :: right[r] == UNUSED
    {
      this.graph := graph;
      g := graph.Contents();
      left := seq(graph.lhsSize, _ => UNUSED);
      right := seq(graph.rhsSize, _ => UNUSED);
    }

    /** Depth-first search from `ilhs`. `trap` is any set that the flow cannot leave: a successful
        search never touches it. */
    method TryAugment(ilhs: nat, seen: array<bool>, ghost trap: set<nat>) returns (ok: bool)
      requires Valid() && ilhs < graph.lhsSize
      requires seen != graph.matched && seen.Length == graph.rhsSize
      requires left[ilhs] != UNUSED ==> seen[left[ilhs]]
      requires Trapped(g, right, trap)
      modifies this`left, this`right, seen
      decreases graph.rhsSize - |Marked(seen[..])|
      ensures graph.Holds(g)
      ensures old(Marked(seen[..])) <= Marked(seen[..])
      ensures !ok ==> left == old(left) && right == old(right)
      ensures !ok ==> Exhausted(g, right, ilhs, old(Marked(seen[..])), Marked(seen[..]))
      ensures ok ==> Augmented(g, old(left), old(right), left, right, old(Marked(seen[..])), ilhs, trap)
    {
      ghost var l0, r0, before := left, right, Marked(seen[..]);
      for irhs := 0 to graph.rhsSize
        invariant Valid()
        invariant left == l0 && right == r0
        invariant Searched(g, right, ilhs, irhs, before, Marked(seen[..]))
      {
        if seen[irhs] { continue; }
        if !graph.HasEdge(ilhs, irhs) { continue; }
        ghost var marked := Marked(seen[..]);
        MarkingDecreases(before, seen[..], irhs);
        seen[irhs] := true;
        assert Marked(seen[..]) == marked + {irhs};
        var found := right[irhs] == UNUSED;
        if found {
          TakeFree(g, l0, r0, before, ilhs, irhs, trap);
        } else {
          found := TryAugment(right[irhs], seen, trap);
          if found {
            AugmentedShrinks(g, l0, r0, left, right, before + {irhs}, marked + {irhs}, r0[irhs], trap);
            TakeOver(g, l0, r0, left, right, before, ilhs, irhs, trap);
          } else {
            DeadEnd(g, right, ilhs, irhs, before, marked, Marked(seen[..]));
          }
        }
        if found {
          left := left[ilhs := irhs];
          right := right[irhs := ilhs];
          return true;
        }
      }
      return false;
    }

    /** Tries each left node once, and returns the edges of a maximum matching in lhs order. */
    method Compute() returns (result: seq<(nat, nat)>)
      requires Valid()
      requires forall l | 0 <= l < |left| :: left[l] == UNUSED
      modifies this`left, this`right
      ensures forall i, j | 0 <= i < j < |result| :: result[i].0 < result[j].0
      ensures IsMaximum(g, Edges(result))
    {
      ghost var trap := {};
      for ilhs := 0 to graph.lhsSize
        invariant Valid()
        invariant forall l | ilhs <= l < |left| :: left[l] == UNUSED
        invariant Certifies(g, left, right, ilhs, trap)
      {
        var seen := new bool[graph.rhsSize](_ => false);
        assert Marked(seen[..]) == {};
        ghost var l0, r0 := left, right;
        var ok := TryAugment(ilhs, seen, trap);
        if ok {
          CertifyMatched(g, l0, r0, left, right, ilhs, trap);
        } else {
          CertifyUnmatched(g, left, right, ilhs, trap, Marked(seen[..]));
          trap := trap + Marked(seen[..]);
        }
      }
      CertifiedIsMaximum(g, left, right, trap);
      result := [];
      ghost var flow := left;
      for ilhs := 0 to |left|
        invariant left == flow
        invariant forall i | 0 <= i < |result| :: result[i].0 < ilhs
        invariant forall i, j | 0 <= i < j < |result| :: result[i].0 < result[j].0
        invariant Edges(result) == FlowBelow(left, ilhs)
      {
        FlowStep(left, ilhs);
        var irhs := left[ilhs];
        if irhs == UNUSED { continue; }
        result := result + [(ilhs, irhs)];
      }
    }
  }

  /** The edges listed in `pairs`. */
  ghost function Edges(pairs: seq<(nat, nat)>): set<(nat, nat)> {
    set p <- pairs
  }

  lemma MarkingDecreases(start: set<nat>, seen: seq<bool>, i: nat)
    requires i < |seen| && !seen[i] && start <= Marked(seen)
    ensures Marked(seen[i := true]) == Marked(seen) + {i}
    ensures |start| < |Marked(seen[i := true])| <= |seen|
  {
    SubsetSize(start, Marked(seen));
    SubsetSize(Marked(seen[i := true]), Below(|seen|));
  }

  /** Keeping away from more marked nodes is keeping away from fewer. */
  lemma AugmentedShrinks(g: Graph, left0: seq<int>, right0: seq<int>, left: seq<int>, right: seq<int>,
                         fewer: set<nat>, more: set<nat>, ilhs: nat, trap: set<nat>)
    requires fewer <= more && Augmented(g, left0, right0, left, right, more, ilhs, trap)
    ensures Augmented(g, left0, right0, left, right, fewer, ilhs, trap)
  {}
}
