module MatchMatrices {
  import opened Graphs
  import opened Powers

  /** The connectivity matrix, flattened in lhs-major order. */
  class MatchMatrix {
    const lhsSize: nat
    const rhsSize: nat
    const matched: array<bool>

    ghost predicate Valid() {
      matched.Length == lhsSize * rhsSize
    }

    constructor (lhsSize: nat, rhsSize: nat)
      ensures Valid() && fresh(matched)
      ensures this.lhsSize == lhsSize && this.rhsSize == rhsSize
      ensures forall i | 0 <= i < matched.Length :: !matched[i]
    {
      this.lhsSize := lhsSize;
      this.rhsSize := rhsSize;
      matched := new bool[lhsSize * rhsSize](_ => false);
    }

    function SpaceIndex(ilhs: nat, irhs: nat): (i: nat)
      requires ilhs < lhsSize && irhs < rhsSize
      ensures i < lhsSize * rhsSize
    {
      IndexInRange(ilhs, irhs, lhsSize, rhsSize);
      ilhs * rhsSize + irhs
    }

    predicate HasEdge(ilhs: nat, irhs: nat)
      requires Valid() && ilhs < lhsSize && irhs < rhsSize
      reads matched
    {
      matched[SpaceIndex(ilhs, irhs)]
    }

    /** `g` is the graph that the matrix stores. */
    ghost predicate Holds(g: Graph)
      reads matched
    {
      && Valid()
      && g.lhs == lhsSize
      && g.rhs == rhsSize
      && InRange(g)
      && forall l: nat, r: nat {:trigger HasEdge(l, r)} | l < lhsSize && r < rhsSize :: HasEdge(l, r) <==> (l, r) in g.edges
    }

    method SetEdge(ilhs: nat, irhs: nat, b: bool)
      requires Valid() && ilhs < lhsSize && irhs < rhsSize
      modifies matched
      ensures Contents() == old(Contents()).(edges := if b then old(Contents()).edges + {(ilhs, irhs)} else old(Contents()).edges - {(ilhs, irhs)})
    {
      forall l: nat, r: nat | l < lhsSize && r < rhsSize && (l, r) != (ilhs, irhs)
        ensures SpaceIndex(l, r) != SpaceIndex(ilhs, irhs)
      {
        IndexInjective(l, r, ilhs, irhs, rhsSize);
      }
      matched[SpaceIndex(ilhs, irhs)] := b;
    }

    /** Steps to the next graph, in the order in which the matrix read as a binary number counts up.
        False when that left the matrix empty. */
    method NextGraph() returns (more: bool)
      requires Valid()
      modifies matched
      ensures matched[..] == Increment(old(matched[..]))
      ensures more <==> false in old(matched[..])
    {
      ghost var bits := matched[..];
      for ilhs := 0 to lhsSize
        invariant Carried(bits, matched[..], ilhs * rhsSize)
      {
        for irhs := 0 to rhsSize
          invariant Carried(bits, matched[..], ilhs * rhsSize + irhs)
        {
          var i := SpaceIndex(ilhs, irhs);
          CarryOn(bits, matched[..], i);
          if !matched[i] {
            matched[i] := true;
            return true;
          }
          matched[i] := false;
        }
        assert ilhs * rhsSize + rhsSize == (ilhs + 1) * rhsSize;
      }
      CarryFallsOff(bits, matched[..]);
      return false;
    }

    /** The graph that the matrix stores. */
    ghost function Contents(): (g: Graph)
      requires Valid()
      reads matched
      ensures InRange(g) && Holds(g)
    {
      Graph(lhsSize, rhsSize, set l: nat, r: nat | l < lhsSize && r < rhsSize && HasEdge(l, r) :: (l, r))
    }
  }

  lemma IndexInRange(ilhs: nat, irhs: nat, lhsSize: nat, rhsSize: nat)
    requires ilhs < lhsSize && irhs < rhsSize
    ensures ilhs * rhsSize + irhs < lhsSize * rhsSize
  {
    assert (ilhs + 1) * rhsSize <= lhsSize * rhsSize;
  }

  lemma IndexOrder(l: nat, r: nat, l': nat, r': nat, rhsSize: nat)
    requires l < l' && r < rhsSize
    ensures l * rhsSize + r < l' * rhsSize + r'
  {
    assert (l + 1) * rhsSize <= l' * rhsSize;
  }

  lemma IndexInjective(l: nat, r: nat, l': nat, r': nat, rhsSize: nat)
    requires r < rhsSize && r' < rhsSize && (l, r) != (l', r')
    ensures l * rhsSize + r != l' * rhsSize + r'
  {
    if l < l' {
      IndexOrder(l, r, l', r', rhsSize);
    } else if l' < l {
      IndexOrder(l', r', l, r, rhsSize);
    }
  }

  /** Adding one to the bits, least significant first, and dropping the last carry. */
  function Increment(bits: seq<bool>): (next: seq<bool>)
    ensures |next| == |bits|
  {
    if bits == [] then []
    else if bits[0] then [false] + Increment(bits[1..])
    else [true] + bits[1..]
  }

  /** The number that the bits, least significant first, stand for. */
  function Number(bits: seq<bool>): (n: nat)
  {
    if bits == [] then 0 else (if bits[0] then 1 else 0) + 2 * Number(bits[1..])
  }

  /** The first `i` bits were all set and have been cleared; the others are as they were. */
  ghost predicate Carried(bits: seq<bool>, now: seq<bool>, i: nat) {
    && i <= |bits| == |now|
    && (forall k | 0 <= k < i :: bits[k] && !now[k])
    && (forall k | i <= k < |bits| :: now[k] == bits[k])
  }

  lemma CarryOn(bits: seq<bool>, now: seq<bool>, i: nat)
    requires Carried(bits, now, i) && i < |bits|
    ensures bits[i] ==> now[i] && Carried(bits, now[i := false], i + 1)
    ensures !bits[i] ==> !now[i] && now[i := true] == Increment(bits) && false in bits
  {
    if !bits[i] {
      CarryStops(bits, now[i := true], i);
    }
  }

  lemma {:induction false} CarryStops(bits: seq<bool>, next: seq<bool>, i: nat)
    requires i < |bits| == |next| && !bits[i] && next[i]
    requires forall k | 0 <= k < i :: bits[k] && !next[k]
    requires forall k | i < k < |bits| :: next[k] == bits[k]
    ensures next == Increment(bits)
  {
    if i == 0 {
      assert next == [true] + bits[1..];
    } else {
      CarryStops(bits[1..], next[1..], i - 1);
      assert next == [false] + next[1..];
    }
  }

  lemma {:induction false} CarryFallsOff(bits: seq<bool>, next: seq<bool>)
    requires Carried(bits, next, |bits|)
    ensures next == Increment(bits) && false !in bits
  {
    if bits != [] {
      CarryFallsOff(bits[1..], next[1..]);
      assert next == [false] + next[1..];
    }
  }

  /** `Increment` adds one modulo 2 to the number of bits; it wraps exactly when every bit is set. */
  lemma {:induction false} IncrementCounts(bits: seq<bool>)
    ensures if false in bits
            then Number(Increment(bits)) == Number(bits) + 1 < Pow(2, |bits|)
            else Number(Increment(bits)) == 0 && Number(bits) + 1 == Pow(2, |bits|)
  {
    if bits != [] {
      IncrementCounts(bits[1..]);
      assert bits == [bits[0]] + bits[1..];
    }
  }

  lemma {:induction false} NumberInjective(a: seq<bool>, b: seq<bool>)
    requires |a| == |b| && Number(a) == Number(b)
    ensures a == b
  {
    if a != [] {
      NumberInjective(a[1..], b[1..]);
      assert a == [a[0]] + a[1..] && b == [b[0]] + b[1..];
    }
  }

  /** The matrix after `n` steps from `bits`. */
  function After(bits: seq<bool>, n: nat): (s: seq<bool>)
    ensures |s| == |bits|
  {
    if n == 0 then bits else Increment(After(bits, n - 1))
  }

  lemma {:induction false} AfterCounts(bits: seq<bool>, n: nat)
    requires Number(bits) + n < Pow(2, |bits|)
    ensures Number(After(bits, n)) == Number(bits) + n
  {
    if n > 0 {
      AfterCounts(bits, n - 1);
      IncrementCounts(After(bits, n - 1));
    }
  }

  /** Counting up from the empty graph meets every graph, at the step that its number names and at
      no other before the count wraps round. */
  lemma EveryGraphOnce(empty: seq<bool>, graph: seq<bool>, n: nat)
    requires |graph| == |empty| && true !in empty && n < Pow(2, |empty|)
    ensures After(empty, n) == graph <==> n == Number(graph)
  {
    EmptyIsZero(empty);
    AfterCounts(empty, n);
    if n == Number(graph) {
      NumberInjective(After(empty, n), graph);
    }
  }

  lemma {:induction false} EmptyIsZero(bits: seq<bool>)
    requires true !in bits
    ensures Number(bits) == 0
  {
    if bits != [] {
      EmptyIsZero(bits[1..]);
    }
  }
}
