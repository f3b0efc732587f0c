/** The records of the multiple-boundary edit distance and its first phase,
    the difference extractor: for every position where two boundary strings
    disagree, the symmetric difference of their label sets and the two
    one-sided differences. */
module Edits {

  /** A boundary type. segeval numbers boundary types 1, 2, ...; the model
      uses natural numbers. */
  type Label = nat

  /** One set of labels per potential boundary position. */
  type BoundaryString = seq<set<Label>>

  /** Which of the two boundary strings an addition comes from ('a' or 'b'). */
  datatype Side = SideA | SideB

  datatype Addition = Addition(boundary: Label, side: Side)

  datatype Substitution = Substitution(typeA: Label, typeB: Label)

  datatype Transposition = Transposition(start: int, end: int, boundary: Label)

  /** The record kept per differing position: `sim` is the symmetric
      difference, `aB` the labels only in A, `bA` the labels only in B. */
  datatype Difference = Difference(sim: set<Label>, aB: set<Label>, bA: set<Label>)

  function SymmetricDifference(x: set<Label>, y: set<Label>): set<Label> {
    (x - y) + (y - x)
  }

  /** The symmetric difference is split exactly into the two one-sided parts. */
  predicate WellFormed(e: Difference) {
    e.sim == e.aB + e.bA && e.aB !! e.bA
  }

  lemma SymmetricDifferenceEmpty(x: set<Label>, y: set<Label>)
    ensures SymmetricDifference(x, y) == {} <==> x == y
  {
    if SymmetricDifference(x, y) == {} {
      forall l ensures l in x <==> l in y {
        assert l !in SymmetricDifference(x, y);
      }
    }
  }

  /** The table of optional set edits of two equal-length boundary strings. */
  function SetEdits(a: BoundaryString, b: BoundaryString): (m: map<int, Difference>)
    requires |a| == |b|
    ensures forall p :: p in m <==> 0 <= p < |a| && SymmetricDifference(a[p], b[p]) != {}
    ensures forall p :: p in m ==> WellFormed(m[p]) && m[p].aB == a[p] - b[p] && m[p].bA == b[p] - a[p]
    ensures a == b ==> m == map[]
  {
    forall p | 0 <= p < |a| {
      SymmetricDifferenceEmpty(a[p], b[p]);
    }
    map p | 0 <= p < |a| && a[p] != b[p] :: Difference(SymmetricDifference(a[p], b[p]), a[p] - b[p], b[p] - a[p])
  }

  /** Builds the table position by position. */
  method OptionalSetEdits(a: BoundaryString, b: BoundaryString) returns (m: map<int, Difference>)
    requires |a| == |b|
    ensures m == SetEdits(a, b)
  {
    m := map[];
    var i := 0;
    while i < |a|
      invariant 0 <= i <= |a|
      invariant forall p :: p in m <==> 0 <= p < i && a[p] != b[p]
      invariant forall p :: p in m ==> m[p] == SetEdits(a, b)[p]
    {
      var onlyA := a[i] - b[i];
      var onlyB := b[i] - a[i];
      var d := SymmetricDifference(a[i], b[i]);
      SymmetricDifferenceEmpty(a[i], b[i]);
      if |d| > 0 {
        m := m[i := Difference(d, onlyA, onlyB)];
      }
      i := i + 1;
    }
  }

  /** `e` with the label `d` discarded from all three of its sets. */
  function Without(e: Difference, d: Label): (r: Difference)
    ensures d !in r.sim && d !in r.aB && d !in r.bA
    ensures r.sim + {d} >= e.sim && r.aB + {d} >= e.aB && r.bA + {d} >= e.bA
    ensures r.sim <= e.sim && r.aB <= e.aB && r.bA <= e.bA
    ensures WellFormed(e) ==> WellFormed(r)
  {
    Difference(e.sim - {d}, e.aB - {d}, e.bA - {d})
  }

  /** The working difference table: created once per comparison, changed in
      place by the transposition finder, then read by the substitution matcher. */
  class DifferenceTable {
    var entries: map<int, Difference>

    constructor (entries: map<int, Difference>)
      ensures this.entries == entries
    {
      this.entries := entries;
    }

    /** Discards `d` from the three sets recorded at position `p`. */
    method Discard(p: int, d: Label)
      requires p in entries
      modifies this
      ensures entries == old(entries)[p := Without(old(entries)[p], d)]
    {
      entries := entries[p := Without(entries[p], d)];
    }
  }
}
