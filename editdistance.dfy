/** boundary_edit_distance: extract the differences of two boundary strings,
    find the transpositions of spans 2 .. n_t, then read the additions and
    substitutions off what is left of the table, position by position. */
module EditDistance {
  import opened Enumeration
  import opened Edits
  import opened Substitutions
  import opened Transpositions
  import opened TranspositionFacts
  import opened TranspositionResults

  /** The spans the finder is given for a maximum span of `nt`: Python's
      range(2, nt + 1). */
  function Spans(nt: int): (r: set<nat>)
    ensures forall n: nat :: n in r <==> 2 <= n <= nt
    ensures Positive(r)
    ensures nt < 2 ==> r == {}
    decreases if nt > 0 then nt else 0
  {
    if nt < 2 then {} else Spans(nt - 1) + {nt}
  }

  /** The additions and substitutions of the table positions below `n`, in
      ascending position order. */
  function Collect(m: map<int, Difference>, n: int): (seq<Addition>, seq<Substitution>)
    decreases if n > 0 then n else 0
  {
    if n <= 0 then ([], [])
    else
      var prev := Collect(m, n - 1);
      if n - 1 in m then
        var e := PositionEdits(m[n - 1].aB, m[n - 1].bA);
        (prev.0 + e.0, prev.1 + e.1)
      else prev
  }

  /** The three edit lists of a comparison. */
  datatype EditSets = EditSets(additions: seq<Addition>, substitutions: seq<Substitution>, transpositions: seq<Transposition>)

  /** The edit lists of A against B when transpositions may span up to `nt`
      positions. */
  function Distance(A: BoundaryString, B: BoundaryString, nt: int): EditSets
    requires |A| == |B|
  {
    var r := FindAll(A, B, Spans(nt), SetEdits(A, B));
    var c := Collect(r.table, |A|);
    EditSets(c.0, c.1, r.ts)
  }

  /** The number of labels in the symmetric differences at positions below `n`. */
  function DifferingLabels(A: BoundaryString, B: BoundaryString, n: int): nat
    requires |A| == |B| && n <= |A|
    decreases if n > 0 then n else 0
  {
    if n <= 0 then 0 else DifferingLabels(A, B, n - 1) + |SymmetricDifference(A[n - 1], B[n - 1])|
  }

  lemma SetEditsCovers(A: BoundaryString, B: BoundaryString)
    requires |A| == |B|
    ensures Covers(A, B, SetEdits(A, B))
  {
    forall p | 0 <= p < |A| && A[p] != B[p] ensures p in SetEdits(A, B) {
      SymmetricDifferenceEmpty(A[p], B[p]);
    }
  }

  lemma CollectStep(m: map<int, Difference>, p: int, next: int)
    requires 0 <= p && next == p + 1
    ensures Collect(m, next) == if p in m then
      (Collect(m, p).0 + PositionEdits(m[p].aB, m[p].bA).0, Collect(m, p).1 + PositionEdits(m[p].aB, m[p].bA).1)
      else Collect(m, p)
  {
  }

  /** The edits Python's loop over the table's records produces: the records
      are visited in the order their positions were inserted, which is
      ascending. */
  method BoundaryEditDistance(A: BoundaryString, B: BoundaryString, nt: int)
    returns (additions: seq<Addition>, substitutions: seq<Substitution>, transpositions: seq<Transposition>)
    requires |A| == |B|
    ensures EditSets(additions, substitutions, transpositions) == Distance(A, B, nt)
  {
    var spans := Spans(nt);
    var m := OptionalSetEdits(A, B);
    var table := new DifferenceTable(m);
    SetEditsCovers(A, B);
    transpositions := FindTranspositions(A, B, spans, table);
    ghost var result := FindAll(A, B, spans, m);
    FindAllTable(A, B, spans, m);
    var entries := table.entries;
    assert forall p :: p in entries ==> WellFormed(entries[p]) by {
      forall p | p in entries ensures WellFormed(entries[p]) {
        ResidualWellFormed(m[p], TouchLabels(result.ts, p));
      }
    }
    additions, substitutions := [], [];
    var p := 0;
    while p < |A|
      invariant 0 <= p <= |A|
      invariant (additions, substitutions) == Collect(entries, p)
    {
      if p in entries {
        var e := entries[p];
        var added, subs := AdditionsSubstitutionsSets(e.sim, e.aB, e.bA);
        additions := additions + added;
        substitutions := substitutions + subs;
      }
      var next := p + 1;
      CollectStep(entries, p, next);
      p := next;
    }
  }

  /** Every record of a well-formed table accounts for its differing labels:
      one addition per unpaired label, two labels per substitution. */
  lemma {:induction false} CollectCount(m: map<int, Difference>, n: int)
    requires forall p :: p in m ==> WellFormed(m[p])
    ensures |Collect(m, n).0| + 2 * |Collect(m, n).1| == Total(m, n)
    decreases if n > 0 then n else 0
  {
    if n > 0 {
      var q := n - 1;
      CollectCount(m, q);
      CollectStep(m, q, n);
      if q in m {
        PositionEditsCount(m[q].aB, m[q].bA);
      }
    }
  }

  /** The table of differences starts with every differing label. */
  lemma {:induction false} TotalSetEdits(A: BoundaryString, B: BoundaryString, n: int)
    requires |A| == |B| && n <= |A|
    ensures Total(SetEdits(A, B), n) == DifferingLabels(A, B, n)
    decreases if n > 0 then n else 0
  {
    if n > 0 {
      TotalSetEdits(A, B, n - 1);
      SymmetricDifferenceEmpty(A[n - 1], B[n - 1]);
    }
  }

  /** Every differing label occurrence lands in exactly one edit: one per
      addition, two per substitution, two per transposition. */
  lemma DistanceConservation(A: BoundaryString, B: BoundaryString, nt: int)
    requires |A| == |B|
    ensures |Distance(A, B, nt).additions| + 2 * |Distance(A, B, nt).substitutions| +
            2 * |Distance(A, B, nt).transpositions| == DifferingLabels(A, B, |A|)
  {
    var orig := SetEdits(A, B);
    var r := FindAll(A, B, Spans(nt), orig);
    FindAllTable(A, B, Spans(nt), orig);
    forall p | p in r.table ensures WellFormed(r.table[p]) {
      ResidualWellFormed(orig[p], TouchLabels(r.ts, p));
    }
    CollectCount(r.table, |A|);
    FindAllCount(A, B, Spans(nt));
    TotalSetEdits(A, B, |A|);
  }

  lemma {:induction false} DifferingLabelsZero(A: BoundaryString, B: BoundaryString, n: int)
    requires |A| == |B| && 0 <= n <= |A|
    ensures DifferingLabels(A, B, n) == 0 <==> forall p :: 0 <= p < n ==> A[p] == B[p]
    decreases n
  {
    if n > 0 {
      DifferingLabelsZero(A, B, n - 1);
      SymmetricDifferenceEmpty(A[n - 1], B[n - 1]);
    }
  }

  /** The distance is empty exactly when the two strings are equal. */
  lemma DistanceEmpty(A: BoundaryString, B: BoundaryString, nt: int)
    requires |A| == |B|
    ensures Distance(A, B, nt) == EditSets([], [], []) <==> A == B
  {
    DistanceConservation(A, B, nt);
    DifferingLabelsZero(A, B, |A|);
  }

  /** Each transposition spans between 2 and `nt` positions of the strings
      and moves its label between its two ends. */
  lemma DistanceTranspositions(A: BoundaryString, B: BoundaryString, nt: int)
    requires |A| == |B|
    ensures forall k :: 0 <= k < |Distance(A, B, nt).transpositions| ==>
      var t := Distance(A, B, nt).transpositions[k];
      0 <= t.start < t.end < |A| && 2 <= t.end - t.start + 1 <= nt && Moved(A, B, t.start, t.end, t.boundary)
  {
    FindAllSound(A, B, Spans(nt), SetEdits(A, B));
  }

  /** With a maximum span below 2 there are no transpositions. */
  lemma DistanceShortSpan(A: BoundaryString, B: BoundaryString, nt: int)
    requires |A| == |B| && nt < 2
    ensures Distance(A, B, nt).transpositions == []
  {
    FindAllNoSpans(A, B, SetEdits(A, B));
  }

  /** A boundary placed one position later in B than in A is a single
      transposition, not an addition in each string. */
  lemma ShiftedBoundary(A: BoundaryString, B: BoundaryString)
    requires A == [{1}, {}] && B == [{}, {1}]
    ensures Distance(A, B, 2) == EditSets([], [], [Transposition(0, 1, 1)])
  {
    var table := map[0 := Difference({}, {}, {}), 1 := Difference({}, {}, {})];
    ShiftedFindAll(A, B, table);
    EmptyCollect(table);
  }

  lemma ShiftedEdits(A: BoundaryString, B: BoundaryString)
    requires A == [{1}, {}] && B == [{}, {1}]
    ensures SetEdits(A, B) == map[0 := Difference({1}, {1}, {}), 1 := Difference({1}, {}, {1})]
  {
    var orig := SetEdits(A, B);
    assert SymmetricDifference(A[0], B[0]) == {1} && SymmetricDifference(A[1], B[1]) == {1};
    assert orig.Keys == {0, 1};
    assert A[0] - B[0] == {1} && B[0] - A[0] == {} && A[1] - B[1] == {} && B[1] - A[1] == {1};
    assert orig[0] == Difference({1}, {1}, {}) && orig[1] == Difference({1}, {}, {1});
  }

  lemma ShiftedTry(orig: map<int, Difference>, table: map<int, Difference>)
    requires orig == map[0 := Difference({1}, {1}, {}), 1 := Difference({1}, {}, {1})]
    requires table == map[0 := Difference({}, {}, {}), 1 := Difference({}, {}, {})]
    ensures Try(Scan([], map[], orig), 0, 1, 1).ts == [Transposition(0, 1, 1)]
    ensures Try(Scan([], map[], orig), 0, 1, 1).table == table
  {
    assert !HasSubstitutions(0, 1, 1, orig);
  }

  lemma ShiftedFindAll(A: BoundaryString, B: BoundaryString, table: map<int, Difference>)
    requires A == [{1}, {}] && B == [{}, {1}]
    requires table == map[0 := Difference({}, {}, {}), 1 := Difference({}, {}, {})]
    ensures FindAll(A, B, Spans(2), SetEdits(A, B)).ts == [Transposition(0, 1, 1)]
    ensures FindAll(A, B, Spans(2), SetEdits(A, B)).table == table
  {
    var orig := SetEdits(A, B);
    ShiftedEdits(A, B);
    assert Spans(2) == {2};
    SortedElementsUnique([2], {2});
    var s0 := Scan([], map[], orig);
    FindAllFolds(A, B, {2}, orig, [2]);
    TrySpansStep(A, B, s0, [2], 0, 1);
    assert Starts(|A|, 2) == 1;
    TryStartsStep(A, B, s0, 2, 0, 1, 1);
    assert Candidates(A, B, 0, 1) == {1};
    SortedElementsUnique([1], {1});
    TryPairAtLabels(A, B, s0, 0, 1, [1]);
    TryLabelsStep(s0, 0, 1, [1], 0, 1);
    ShiftedTry(orig, table);
  }

  lemma EmptyCollect(table: map<int, Difference>)
    requires table == map[0 := Difference({}, {}, {}), 1 := Difference({}, {}, {})]
    ensures Collect(table, 2) == ([], [])
  {
    CollectStep(table, 0, 1);
    CollectStep(table, 1, 2);
    PositionEditsCount({}, {});
  }

  /** Two labels swapped between neighbouring positions stay two
      substitutions: each candidate transposition would remove a substitution
      at both of its positions, so both are rejected. */
  lemma SwappedBoundaries(A: BoundaryString, B: BoundaryString)
    requires A == [{1}, {2}] && B == [{2}, {1}]
    ensures Distance(A, B, 2) == EditSets([], [Substitution(1, 2), Substitution(2, 1)], [])
  {
    var table := map[0 := Difference({1, 2}, {1}, {2}), 1 := Difference({1, 2}, {2}, {1})];
    SwappedFindAll(A, B, table);
    var e0: (seq<Addition>, seq<Substitution>) := ([], [Substitution(1, 2)]);
    var e1: (seq<Addition>, seq<Substitution>) := ([], [Substitution(2, 1)]);
    SwappedPositions(table);
    CollectTwo(table, e0, e1);
    Concat(Substitution(1, 2), Substitution(2, 1));
  }

  /** Two one-element lists joined, proved apart from the scenario above
      where the literal concatenation would be expensive to check. */
  lemma Concat(x: Substitution, y: Substitution)
    ensures [x] + [y] == [x, y]
  {
  }

  lemma SwappedEdits(A: BoundaryString, B: BoundaryString)
    requires A == [{1}, {2}] && B == [{2}, {1}]
    ensures SetEdits(A, B) == map[0 := Difference({1, 2}, {1}, {2}), 1 := Difference({1, 2}, {2}, {1})]
  {
    var orig := SetEdits(A, B);
    assert SymmetricDifference(A[0], B[0]) == {1, 2} && SymmetricDifference(A[1], B[1]) == {1, 2};
    assert orig.Keys == {0, 1};
    assert A[0] - B[0] == {1} && B[0] - A[0] == {2} && A[1] - B[1] == {2} && B[1] - A[1] == {1};
    assert orig[0] == Difference({1, 2}, {1}, {2}) && orig[1] == Difference({1, 2}, {2}, {1});
  }

  lemma SwappedFindAll(A: BoundaryString, B: BoundaryString, table: map<int, Difference>)
    requires A == [{1}, {2}] && B == [{2}, {1}]
    requires table == map[0 := Difference({1, 2}, {1}, {2}), 1 := Difference({1, 2}, {2}, {1})]
    ensures FindAll(A, B, Spans(2), SetEdits(A, B)).ts == []
    ensures FindAll(A, B, Spans(2), SetEdits(A, B)).table == table
  {
    SwappedEdits(A, B);
    assert Spans(2) == {2};
    SortedElementsUnique([2], {2});
    var s0 := Scan([], map[], table);
    FindAllFolds(A, B, {2}, table, [2]);
    TrySpansStep(A, B, s0, [2], 0, 1);
    assert Starts(|A|, 2) == 1;
    TryStartsStep(A, B, s0, 2, 0, 1, 1);
    assert Candidates(A, B, 0, 1) == {1, 2};
    SortedElementsUnique([1, 2], {1, 2});
    TryPairAtLabels(A, B, s0, 0, 1, [1, 2]);
    TryLabelsStep(s0, 0, 1, [1, 2], 0, 1);
    TryLabelsStep(s0, 0, 1, [1, 2], 1, 2);
    assert HasSubstitutions(0, 1, 1, table) && HasSubstitutions(0, 1, 2, table);
  }

  lemma SwappedPositions(table: map<int, Difference>)
    requires table == map[0 := Difference({1, 2}, {1}, {2}), 1 := Difference({1, 2}, {2}, {1})]
    ensures 0 in table && PositionEdits(table[0].aB, table[0].bA) == ([], [Substitution(1, 2)])
    ensures 1 in table && PositionEdits(table[1].aB, table[1].bA) == ([], [Substitution(2, 1)])
  {
    assert table[0].aB == {1} && table[0].bA == {2} && table[1].aB == {2} && table[1].bA == {1};
    SinglePair(1, 2);
    SinglePair(2, 1);
  }

  /** The edits of a table of two positions. */
  lemma CollectTwo(m: map<int, Difference>, e0: (seq<Addition>, seq<Substitution>), e1: (seq<Addition>, seq<Substitution>))
    requires 0 in m && 1 in m
    requires e0 == PositionEdits(m[0].aB, m[0].bA) && e1 == PositionEdits(m[1].aB, m[1].bA)
    ensures Collect(m, 2) == (e0.0 + e1.0, e0.1 + e1.1)
  {
    CollectFirst(m, e0);
    CollectStep(m, 1, 2);
  }

  lemma CollectFirst(m: map<int, Difference>, e0: (seq<Addition>, seq<Substitution>))
    requires 0 in m && e0 == PositionEdits(m[0].aB, m[0].bA)
    ensures Collect(m, 1) == e0
  {
    CollectStep(m, 0, 1);
    assert [] + e0.0 == e0.0 && [] + e0.1 == e0.1;
  }

  /** One label on each side: they form the only substitution. */
  lemma SinglePair(x: Label, y: Label)
    ensures PositionEdits({x}, {y}) == ([], [Substitution(x, y)])
  {
    var subs := BestPairing({x}, {y});
    BestPairingShape({x}, {y});
    assert subs == [subs[0]];
    assert subs[0] == Substitution(x, y);
    PositionEditsOf({x}, {y}, subs);
    LabelsSingle(subs[0]);
    assert {x} - {x, y} == {} && {y} - {x, y} == {};
    assert |SortedElements({})| == 0;
    assert Unpaired({x}, {y}, {x, y}) == [];
  }
}
