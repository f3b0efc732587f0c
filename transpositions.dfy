/** The transposition finder: scans pairs of positions i < j, shortest spans
    first, for a label that sits at i in one boundary string and at j in the
    other, records it as a transposition unless it overlaps an earlier one of
    the same label or would remove two substitutions, and discards the label
    from the difference table at both positions. */
module Transpositions {
  import opened Enumeration
  import opened Edits
  import opened Substitutions

  /** The labels that could be transposed between positions i and j: the
      intersection of the four symmetric differences. */
  function Candidates(A: BoundaryString, B: BoundaryString, i: int, j: int): (r: set<Label>)
    requires |A| == |B| && 0 <= i < |A| && 0 <= j < |A|
    ensures forall d :: d in r <==>
      (d in A[i] && d !in B[i] && d in B[j] && d !in A[j]) ||
      (d in B[i] && d !in A[i] && d in A[j] && d !in B[j])
    ensures i == j ==> r == {}
  {
    SymmetricDifference(A[i], B[i]) * SymmetricDifference(A[j], B[j]) *
    SymmetricDifference(A[i], A[j]) * SymmetricDifference(B[i], B[j])
  }

  /** The labels of a list of transpositions. */
  function Boundaries(ts: seq<Transposition>): set<Label> {
    set k | 0 <= k < |ts| :: ts[k].boundary
  }

  /** The scan of check_position: does one of `ts` have label `d`? */
  function Mentions(ts: seq<Transposition>, d: Label): (r: bool)
    ensures r <==> d in Boundaries(ts)
  {
    if ts == [] then false
    else
      assert forall k :: 0 < k < |ts| ==> ts[k] == ts[1..][k - 1];
      assert ts[0].boundary in Boundaries(ts);
      ts[0].boundary == d || Mentions(ts[1..], d)
  }

  /** check_position: some transposition recorded at p has the label d. */
  function CheckPosition(claimed: map<int, seq<Transposition>>, p: int, d: Label): (r: bool)
    ensures r <==> p in claimed && d in Boundaries(claimed[p])
  {
    p in claimed && Mentions(claimed[p], d)
  }

  /** __overlaps_existing__: a transposition of `d` already claims position i or j. */
  function OverlapsExisting(i: int, j: int, d: Label, claimed: map<int, seq<Transposition>>): (r: bool)
    ensures r <==> (i in claimed && d in Boundaries(claimed[i])) || (j in claimed && d in Boundaries(claimed[j]))
  {
    CheckPosition(claimed, i, d) || CheckPosition(claimed, j, d)
  }

  /** __has_substitutions__: `d` is still recorded at both positions and both
      positions would count a substitution. */
  function HasSubstitutions(i: int, j: int, d: Label, table: map<int, Difference>): (r: bool)
    ensures i in table && WellFormed(table[i]) && j in table && WellFormed(table[j]) ==>
      (r <==> d in table[i].sim && d in table[j].sim &&
              table[i].aB != {} && table[i].bA != {} && table[j].aB != {} && table[j].bA != {})
    ensures i !in table || j !in table ==> !r
  {
    if i in table && d in table[i].sim && j in table && d in table[j].sim then
      var ei, ej := table[i], table[j];
      AdditionsSubstitutions(ei.sim, ei.aB, ei.bA).1 > 0.0 &&
      AdditionsSubstitutions(ej.sim, ej.aB, ej.bA).1 > 0.0
    else false
  }

  /** Appends `t` to the list of transpositions recorded at position `p`,
      starting a new list when `p` has none yet. */
  function Claim(claimed: map<int, seq<Transposition>>, p: int, t: Transposition): map<int, seq<Transposition>> {
    claimed[p := (if p in claimed then claimed[p] else []) + [t]]
  }

  /** Discards `d` at position `p` of the table. */
  function Strip(table: map<int, Difference>, p: int, d: Label): map<int, Difference> {
    if p in table then table[p := Without(table[p], d)] else table
  }

  /** The working state of the finder. */
  datatype Scan = Scan(ts: seq<Transposition>, claimed: map<int, seq<Transposition>>, table: map<int, Difference>)

  /** One candidate (i, j, d): accepted unless it overlaps or removes two substitutions. */
  function Try(s: Scan, i: int, j: int, d: Label): Scan {
    if !OverlapsExisting(i, j, d, s.claimed) && !HasSubstitutions(i, j, d, s.table) then
      var t := Transposition(i, j, d);
      Scan(s.ts + [t], Claim(Claim(s.claimed, i, t), j, t), Strip(Strip(s.table, i, d), j, d))
    else s
  }

  /** The state after trying the first `k` labels of `ds` for the pair (i, j). */
  function TryLabels(s: Scan, i: int, j: int, ds: seq<Label>, k: int): Scan
    requires 0 <= k <= |ds|
  {
    if k == 0 then s else Try(TryLabels(s, i, j, ds, k - 1), i, j, ds[k - 1])
  }

  /** The number of start positions of span `n` in a string of `len` positions. */
  function Starts(len: int, n: int): nat {
    if len - n + 1 > 0 then len - n + 1 else 0
  }

  /** The state after trying every candidate label of the pair (i, j). */
  function TryPairAt(A: BoundaryString, B: BoundaryString, s: Scan, i: int, j: int): Scan
    requires |A| == |B| && 0 <= i < |A| && 0 <= j < |A|
  {
    var ds := SortedElements(Candidates(A, B, i, j));
    TryLabels(s, i, j, ds, |ds|)
  }

  /** The state after trying span `n` from the first `k` start positions. */
  function TryStarts(A: BoundaryString, B: BoundaryString, s: Scan, n: int, k: int): Scan
    requires |A| == |B| && n >= 1 && 0 <= k <= Starts(|A|, n)
  {
    if k == 0 then s else TryPairAt(A, B, TryStarts(A, B, s, n, k - 1), k - 1, k - 1 + n - 1)
  }

  predicate Positive(spans: set<nat>) {
    forall n :: n in spans ==> n >= 1
  }

  /** The state after the first `k` spans of `ns`. */
  function TrySpans(A: BoundaryString, B: BoundaryString, s: Scan, ns: seq<nat>, k: int): Scan
    requires |A| == |B| && 0 <= k <= |ns| && forall x :: 0 <= x < |ns| ==> ns[x] >= 1
  {
    if k == 0 then s
    else TryStarts(A, B, TrySpans(A, B, s, ns, k - 1), ns[k - 1], Starts(|A|, ns[k - 1]))
  }

  /** The transpositions and the final table find_transpositions produces,
      with the spans taken in ascending order. */
  function FindAll(A: BoundaryString, B: BoundaryString, spans: set<nat>, table: map<int, Difference>): Scan
    requires |A| == |B| && Positive(spans)
  {
    var ns := SortedElements(spans);
    SortedPositive(spans);
    TrySpans(A, B, Scan([], map[], table), ns, |ns|)
  }

  lemma FindAllFolds(A: BoundaryString, B: BoundaryString, spans: set<nat>, table: map<int, Difference>, ns: seq<nat>)
    requires |A| == |B| && Positive(spans) && ns == SortedElements(spans)
    ensures forall x :: 0 <= x < |ns| ==> ns[x] >= 1
    ensures FindAll(A, B, spans, table) == TrySpans(A, B, Scan([], map[], table), ns, |ns|)
  {
    SortedPositive(spans);
  }

  lemma SortedPositive(spans: set<nat>)
    requires Positive(spans)
    ensures forall x :: 0 <= x < |SortedElements(spans)| ==> SortedElements(spans)[x] >= 1
  {
    var ns := SortedElements(spans);
    forall x | 0 <= x < |ns| ensures ns[x] >= 1 {
      assert ns[x] in Elements(ns);
    }
  }

  /* The step lemmas name the successor index as a parameter of its own, so
     that callers can advance their loop counter to exactly that value. */

  lemma TryLabelsStep(s: Scan, i: int, j: int, ds: seq<Label>, k: int, next: int)
    requires 0 <= k < |ds| && next == k + 1
    ensures TryLabels(s, i, j, ds, next) == Try(TryLabels(s, i, j, ds, k), i, j, ds[k])
  {
  }

  lemma TryStartsStep(A: BoundaryString, B: BoundaryString, s: Scan, n: int, i: int, j: int, next: int)
    requires |A| == |B| && n >= 1 && 0 <= i < Starts(|A|, n) && j == i + n - 1 && next == i + 1
    ensures TryStarts(A, B, s, n, next) == TryPairAt(A, B, TryStarts(A, B, s, n, i), i, j)
  {
    TryStartsUnfold(A, B, s, n, next);
    StartsCongruent(A, B, s, n, next - 1, i);
    PairAtCongruent(A, B, TryStarts(A, B, s, n, i), next - 1, i, next - 1 + n - 1, j);
  }

  /* Equal arguments, equal results: stated separately so that the solver
     need not discover index equalities by arithmetic inside a large context. */

  lemma TryStartsUnfold(A: BoundaryString, B: BoundaryString, s: Scan, n: int, k: int)
    requires |A| == |B| && n >= 1 && 0 < k <= Starts(|A|, n)
    ensures TryStarts(A, B, s, n, k) == TryPairAt(A, B, TryStarts(A, B, s, n, k - 1), k - 1, k - 1 + n - 1)
  {
  }

  lemma StartsCongruent(A: BoundaryString, B: BoundaryString, s: Scan, n: int, k: int, k': int)
    requires |A| == |B| && n >= 1 && 0 <= k <= Starts(|A|, n) && k == k'
    ensures TryStarts(A, B, s, n, k) == TryStarts(A, B, s, n, k')
  {
  }

  lemma LabelsCongruent(s: Scan, i: int, j: int, ds: seq<Label>, k: int, k': int)
    requires 0 <= k <= |ds| && k == k'
    ensures TryLabels(s, i, j, ds, k) == TryLabels(s, i, j, ds, k')
  {
  }

  lemma SpansCongruent(A: BoundaryString, B: BoundaryString, s: Scan, ns: seq<nat>, k: int, k': int)
    requires |A| == |B| && 0 <= k <= |ns| && k == k' && forall x :: 0 <= x < |ns| ==> ns[x] >= 1
    ensures TrySpans(A, B, s, ns, k) == TrySpans(A, B, s, ns, k')
  {
  }

  lemma PairAtCongruent(A: BoundaryString, B: BoundaryString, s: Scan, i: int, i': int, j: int, j': int)
    requires |A| == |B| && 0 <= i < |A| && 0 <= j < |A| && i == i' && j == j'
    ensures TryPairAt(A, B, s, i, j) == TryPairAt(A, B, s, i', j')
  {
  }

  lemma TryPairAtLabels(A: BoundaryString, B: BoundaryString, s: Scan, i: int, j: int, ds: seq<Label>)
    requires |A| == |B| && 0 <= i < |A| && 0 <= j < |A|
    requires ds == SortedElements(Candidates(A, B, i, j))
    ensures TryPairAt(A, B, s, i, j) == TryLabels(s, i, j, ds, |ds|)
  {
  }

  /** Candidates only occur at positions where the two strings differ. */
  lemma CandidatePositions(A: BoundaryString, B: BoundaryString, i: int, j: int)
    requires |A| == |B| && 0 <= i < |A| && 0 <= j < |A|
    ensures SortedElements(Candidates(A, B, i, j)) != [] ==> A[i] != B[i] && A[j] != B[j]
  {
    var ds := SortedElements(Candidates(A, B, i, j));
    if ds != [] {
      assert ds[0] in Elements(ds);
    }
  }

  lemma TrySpansStep(A: BoundaryString, B: BoundaryString, s: Scan, ns: seq<nat>, x: int, next: int)
    requires |A| == |B| && 0 <= x < |ns| && next == x + 1 && forall y :: 0 <= y < |ns| ==> ns[y] >= 1
    ensures TrySpans(A, B, s, ns, next) == TryStarts(A, B, TrySpans(A, B, s, ns, x), ns[x], Starts(|A|, ns[x]))
  {
  }

  /** Every position where the strings differ has an entry in the table. */
  predicate Covers(A: BoundaryString, B: BoundaryString, table: map<int, Difference>)
    requires |A| == |B|
  {
    forall p :: 0 <= p < |A| && A[p] != B[p] ==> p in table
  }

  /** The keys of the table are never added or removed. */
  ghost predicate SameKeys(m: map<int, Difference>, n: map<int, Difference>) {
    forall p :: p in m <==> p in n
  }

  /** The body of the innermost loop of find_transpositions: the candidate
      (i, j, d) is recorded and discarded from the table unless it overlaps an
      earlier transposition or would remove two substitutions. */
  method TryCandidate(i: int, j: int, d: Label, table: DifferenceTable,
                      ts: seq<Transposition>, claimed: map<int, seq<Transposition>>)
    returns (ts': seq<Transposition>, claimed': map<int, seq<Transposition>>)
    requires i in table.entries && j in table.entries
    modifies table
    ensures SameKeys(table.entries, old(table.entries))
    ensures Scan(ts', claimed', table.entries) == Try(Scan(ts, claimed, old(table.entries)), i, j, d)
  {
    ts', claimed' := ts, claimed;
    if !OverlapsExisting(i, j, d, claimed) && !HasSubstitutions(i, j, d, table.entries) {
      var t := Transposition(i, j, d);
      ts' := ts + [t];
      claimed' := Claim(Claim(claimed, i, t), j, t);
      table.Discard(i, d);
      table.Discard(j, d);
    }
  }

  /** The innermost loop of find_transpositions: every candidate label of
      the pair (i, j) in turn. */
  method TryPair(i: int, j: int, ds: seq<Label>, table: DifferenceTable,
                 ts: seq<Transposition>, claimed: map<int, seq<Transposition>>)
    returns (ts': seq<Transposition>, claimed': map<int, seq<Transposition>>)
    requires ds != [] ==> i in table.entries && j in table.entries
    modifies table
    ensures SameKeys(table.entries, old(table.entries))
    ensures Scan(ts', claimed', table.entries) == TryLabels(Scan(ts, claimed, old(table.entries)), i, j, ds, |ds|)
  {
    ghost var start := Scan(ts, claimed, table.entries);
    ts', claimed' := ts, claimed;
    var k := 0;
    while k < |ds|
      invariant 0 <= k <= |ds|
      invariant SameKeys(table.entries, old(table.entries))
      invariant Scan(ts', claimed', table.entries) == TryLabels(start, i, j, ds, k)
    {
      ts', claimed' := TryCandidate(i, j, ds[k], table, ts', claimed');
      var next := k + 1;
      TryLabelsStep(start, i, j, ds, k, next);
      k := next;
    }
    LabelsCongruent(start, i, j, ds, k, |ds|);
  }

  /** The middle loop of find_transpositions: every start position of span `n`. */
  method TrySpan(A: BoundaryString, B: BoundaryString, n: nat, table: DifferenceTable,
                 ts: seq<Transposition>, claimed: map<int, seq<Transposition>>)
    returns (ts': seq<Transposition>, claimed': map<int, seq<Transposition>>)
    requires |A| == |B| && n >= 1 && Covers(A, B, table.entries)
    modifies table
    ensures SameKeys(table.entries, old(table.entries))
    ensures Scan(ts', claimed', table.entries) == TryStarts(A, B, Scan(ts, claimed, old(table.entries)), n, Starts(|A|, n))
  {
    ghost var before := Scan(ts, claimed, table.entries);
    ts', claimed' := ts, claimed;
    var i := 0;
    while i < |A| - (n - 1)
      invariant 0 <= i <= Starts(|A|, n)
      invariant SameKeys(table.entries, old(table.entries))
      invariant Covers(A, B, table.entries)
      invariant Scan(ts', claimed', table.entries) == TryStarts(A, B, before, n, i)
    {
      var j := i + n - 1;
      var ds := SortedElements(Candidates(A, B, i, j));
      CandidatePositions(A, B, i, j);
      ghost var pre := Scan(ts', claimed', table.entries);
      ts', claimed' := TryPair(i, j, ds, table, ts', claimed');
      TryPairAtLabels(A, B, pre, i, j, ds);
      var next := i + 1;
      TryStartsStep(A, B, before, n, i, j, next);
      i := next;
    }
    StartsCongruent(A, B, before, n, i, Starts(|A|, n));
  }

  /** find_transpositions, over the difference table it changes in place. */
  method FindTranspositions(A: BoundaryString, B: BoundaryString, spans: set<nat>, table: DifferenceTable)
    returns (transpositions: seq<Transposition>)
    requires |A| == |B| && Positive(spans) && Covers(A, B, table.entries)
    modifies table
    ensures SameKeys(table.entries, old(table.entries))
    ensures transpositions == FindAll(A, B, spans, old(table.entries)).ts
    ensures table.entries == FindAll(A, B, spans, old(table.entries)).table
  {
    var claimed: map<int, seq<Transposition>> := map[];
    transpositions := [];
    var ns := SortedElements(spans);
    SortedPositive(spans);
    ghost var init := Scan([], map[], table.entries);
    var x := 0;
    while x < |ns|
      invariant 0 <= x <= |ns|
      invariant SameKeys(table.entries, old(table.entries))
      invariant Covers(A, B, table.entries)
      invariant Scan(transpositions, claimed, table.entries) == TrySpans(A, B, init, ns, x)
    {
      transpositions, claimed := TrySpan(A, B, ns[x], table, transpositions, claimed);
      var next := x + 1;
      TrySpansStep(A, B, init, ns, x, next);
      x := next;
    }
    SpansCongruent(A, B, init, ns, x, |ns|);
    FindAllFolds(A, B, spans, old(table.entries), ns);
  }
}
