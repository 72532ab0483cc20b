/** The graphs of matching problems: which element (left) satisfies which matcher (right). */
module Graphs {
  import opened Collections

  datatype Graph = Graph(lhs: nat, rhs: nat, edges: set<(nat, nat)>)

  /** Both ends of every edge are nodes of the graph. */
  ghost predicate InRange(g: Graph) {
    forall e <- g.edges :: e.0 < g.lhs && e.1 < g.rhs
  }

  ghost predicate DisjointEdges(m: set<(nat, nat)>) {
    forall e, f | e in m && f in m && (e.0 == f.0 || e.1 == f.1) :: e == f
  }

  /** A set of edges of `g`, no two of which share a node. */
  ghost predicate IsMatching(g: Graph, m: set<(nat, nat)>) {
    m <= g.edges && DisjointEdges(m)
  }

  ghost predicate IsMaximum(g: Graph, m: set<(nat, nat)>) {
    IsMatching(g, m) && forall other :: IsMatching(g, other) ==> |other| <= |m|
  }

  ghost function Lefts(m: set<(nat, nat)>): set<nat> {
    set e <- m :: e.0
  }

  ghost function Rights(m: set<(nat, nat)>): set<nat> {
    set e <- m :: e.1
  }

  /** `pairing` sends every edge of `a` to an edge of `b`, and no two to the same one. */
  ghost predicate Injects(a: set<(nat, nat)>, b: set<(nat, nat)>, pairing: map<(nat, nat), (nat, nat)>) {
    && a <= pairing.Keys
    && (forall e <- a :: pairing[e] in b)
    && (forall e, f | e in a && f in a && pairing[e] == pairing[f] :: e == f)
  }

  lemma {:induction false} InjectionBound(
    a: set<(nat, nat)>, b: set<(nat, nat)>, pairing: map<(nat, nat), (nat, nat)>)
    requires Injects(a, b, pairing)
    ensures |a| <= |b|
  {
    if e :| e in a {
      InjectionBound(a - {e}, b - {pairing[e]}, pairing);
    }
  }

  function Below(n: nat): (s: set<nat>)
    ensures forall i: nat :: i in s <==> i < n
    ensures |s| == n
  {
    if n == 0 then {} else Below(n - 1) + {n - 1}
  }

  lemma WithoutEdge(m: set<(nat, nat)>, e: (nat, nat))
    requires DisjointEdges(m) && e in m
    ensures Lefts(m) == Lefts(m - {e}) + {e.0} && e.0 !in Lefts(m - {e})
    ensures Rights(m) == Rights(m - {e}) + {e.1} && e.1 !in Rights(m - {e})
  {}

  /** A matching has as many left ends, and as many right ends, as edges. */
  lemma {:induction false} EndCounts(m: set<(nat, nat)>)
    requires DisjointEdges(m)
    ensures |Lefts(m)| == |m| == |Rights(m)|
  {
    if e :| e in m {
      EndCounts(m - {e});
      WithoutEdge(m, e);
    } else {
      assert m == {};
    }
  }

  /** A matching covers one side exactly when it is as large as that side, and is never larger. */
  lemma CoverageBySize(g: Graph, m: set<(nat, nat)>)
    requires InRange(g) && IsMatching(g, m)
    ensures |m| <= g.lhs && |m| <= g.rhs
    ensures |m| == g.lhs <==> Lefts(m) == Below(g.lhs)
    ensures |m| == g.rhs <==> Rights(m) == Below(g.rhs)
  {
    EndCounts(m);
    SubsetSize(Lefts(m), Below(g.lhs));
    SubsetSize(Rights(m), Below(g.rhs));
  }
}
