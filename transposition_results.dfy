/** What the transposition finder guarantees about its result, derived from
    the invariant of its scan: each transposition is a genuine candidate,
    two transpositions of one label never share a position, none was taken
    where both endpoints still held a substitution, the list is ordered by
    span and start, and the table is left holding exactly the labels no
    transposition used, two fewer differing labels per transposition. */
module TranspositionResults {
  import opened Edits
  import opened Transpositions
  import opened TranspositionFacts

  /** A label moved between `i` and `j`: present at `i` in one string and at
      `j` in the other, and absent from the other string at both places. */
  predicate Moved(A: BoundaryString, B: BoundaryString, i: int, j: int, d: Label)
    requires |A| == |B| && 0 <= i < |A| && 0 <= j < |A|
  {
    (d in A[i] && d !in B[i] && d in B[j] && d !in A[j]) ||
    (d in B[i] && d !in A[i] && d in A[j] && d !in B[j])
  }

  /** `t` joins two distinct positions of the strings, has one of the
      requested spans and moves its label between them. */
  predicate Genuine(A: BoundaryString, B: BoundaryString, spans: set<nat>, t: Transposition)
    requires |A| == |B|
  {
    0 <= t.start < t.end < |A| && t.end - t.start + 1 in spans && Moved(A, B, t.start, t.end, t.boundary)
  }

  /** Every transposition found is genuine. */
  lemma FindAllSound(A: BoundaryString, B: BoundaryString, spans: set<nat>, orig: map<int, Difference>)
    requires |A| == |B| && Positive(spans)
    ensures forall k :: 0 <= k < |FindAll(A, B, spans, orig).ts| ==> Genuine(A, B, spans, FindAll(A, B, spans, orig).ts[k])
  {
    FindAllAdmissible(A, B, spans, orig);
    AdmissibleSound(A, B, spans, orig, FindAll(A, B, spans, orig).ts);
  }

  lemma FindAllAdmissible(A: BoundaryString, B: BoundaryString, spans: set<nat>, orig: map<int, Difference>)
    requires |A| == |B| && Positive(spans)
    ensures Admissible(A, B, spans, orig, FindAll(A, B, spans, orig).ts)
  {
    FindAllInv(A, B, spans, orig);
  }

  lemma AdmissibleSound(A: BoundaryString, B: BoundaryString, spans: set<nat>, orig: map<int, Difference>, ts: seq<Transposition>)
    requires |A| == |B| && Admissible(A, B, spans, orig, ts)
    ensures forall k :: 0 <= k < |ts| ==> Genuine(A, B, spans, ts[k])
  {
    forall k | 0 <= k < |ts| ensures Genuine(A, B, spans, ts[k]) {
      AdmissibleAt(A, B, spans, orig, ts, k);
      ProperMoved(A, B, spans, ts[k]);
    }
  }

  lemma ProperMoved(A: BoundaryString, B: BoundaryString, spans: set<nat>, t: Transposition)
    requires |A| == |B| && Proper(A, B, spans, t)
    ensures Genuine(A, B, spans, t)
  {
  }

  /** Without any span to try, nothing is found and the table is untouched. */
  lemma FindAllNoSpans(A: BoundaryString, B: BoundaryString, orig: map<int, Difference>)
    requires |A| == |B|
    ensures FindAll(A, B, {}, orig).ts == []
    ensures FindAll(A, B, {}, orig).table == orig
  {
    FindAllInv(A, B, {}, orig);
    var ts := FindAll(A, B, {}, orig).ts;
    if ts != [] {
      AdmissibleAt(A, B, {}, orig, ts, 0);
      assert false;
    }
  }

  lemma AdmissibleAt(A: BoundaryString, B: BoundaryString, spans: set<nat>, orig: map<int, Difference>, ts: seq<Transposition>, k: int)
    requires |A| == |B| && Admissible(A, B, spans, orig, ts) && 0 <= k < |ts|
    ensures Proper(A, B, spans, ts[k]) && Free(orig, ts[..k], ts[k])
  {
  }

  /** Ascending span; within one span, ascending start position. */
  lemma FindAllOrdered(A: BoundaryString, B: BoundaryString, spans: set<nat>, orig: map<int, Difference>)
    requires |A| == |B| && Positive(spans)
    ensures forall a, b :: 0 <= a < b < |FindAll(A, B, spans, orig).ts| ==>
      Span(FindAll(A, B, spans, orig).ts[a]) < Span(FindAll(A, B, spans, orig).ts[b]) ||
      (Span(FindAll(A, B, spans, orig).ts[a]) == Span(FindAll(A, B, spans, orig).ts[b]) &&
       FindAll(A, B, spans, orig).ts[a].start <= FindAll(A, B, spans, orig).ts[b].start)
  {
    FindAllInv(A, B, spans, orig);
  }

  /** The transposition accepted at index `b` shares no position with an
      earlier transposition of the same label. */
  lemma FreeApart(orig: map<int, Difference>, ts: seq<Transposition>, a: int, b: int)
    requires 0 <= a < b < |ts| && Free(orig, ts[..b], ts[b]) && ts[a].boundary == ts[b].boundary
    ensures !Touches(ts[a], ts[b].start) && !Touches(ts[a], ts[b].end)
  {
    var before := ts[..b];
    var d := ts[b].boundary;
    assert before[a] == ts[a];
    ClaimMapMentions(before, ts[b].start, d);
    ClaimMapMentions(before, ts[b].end, d);
    NotTouching(before, a, ts[b].start);
    NotTouching(before, a, ts[b].end);
  }

  lemma NotTouching(ts: seq<Transposition>, k: int, p: int)
    requires 0 <= k < |ts| && ts[k].boundary !in TouchLabels(ts, p)
    ensures !Touches(ts[k], p)
  {
  }

  /** Two transpositions of the same label never share a position. */
  lemma FindAllApart(A: BoundaryString, B: BoundaryString, spans: set<nat>, orig: map<int, Difference>)
    requires |A| == |B| && Positive(spans)
    ensures forall a, b ::
      0 <= a < b < |FindAll(A, B, spans, orig).ts| &&
      FindAll(A, B, spans, orig).ts[a].boundary == FindAll(A, B, spans, orig).ts[b].boundary ==>
      FindAll(A, B, spans, orig).ts[a].start != FindAll(A, B, spans, orig).ts[b].start &&
      FindAll(A, B, spans, orig).ts[a].start != FindAll(A, B, spans, orig).ts[b].end &&
      FindAll(A, B, spans, orig).ts[a].end != FindAll(A, B, spans, orig).ts[b].start &&
      FindAll(A, B, spans, orig).ts[a].end != FindAll(A, B, spans, orig).ts[b].end
  {
    FindAllInv(A, B, spans, orig);
    var ts := FindAll(A, B, spans, orig).ts;
    forall a, b | 0 <= a < b < |ts| && ts[a].boundary == ts[b].boundary
      ensures !Touches(ts[a], ts[b].start) && !Touches(ts[a], ts[b].end)
    {
      FreeApart(orig, ts, a, b);
    }
  }

  /** The table the finder leaves behind keeps every position of the
      original and holds there the original record less the labels of the
      transpositions ending at that position. */
  lemma FindAllTable(A: BoundaryString, B: BoundaryString, spans: set<nat>, orig: map<int, Difference>)
    requires |A| == |B| && Positive(spans)
    ensures forall p :: p in FindAll(A, B, spans, orig).table <==> p in orig
    ensures forall p :: p in orig ==>
      FindAll(A, B, spans, orig).table[p] == Residual(orig[p], TouchLabels(FindAll(A, B, spans, orig).ts, p))
  {
    FindAllInv(A, B, spans, orig);
    var r := FindAll(A, B, spans, orig);
    forall p ensures (p in r.table <==> p in orig) && (p in orig ==> r.table[p] == Residual(orig[p], TouchLabels(r.ts, p))) {
      StripAllEntry(orig, r.ts, p);
    }
  }

  /** The label of an accepted transposition was still recorded at both of
      its positions when it was accepted. */
  lemma FreshAtEnds(A: BoundaryString, B: BoundaryString, spans: set<nat>, ts: seq<Transposition>, k: int)
    requires |A| == |B| && 0 <= k < |ts| && Proper(A, B, spans, ts[k])
    requires Free(SetEdits(A, B), ts[..k], ts[k])
    ensures ts[k].start in SetEdits(A, B) && ts[k].end in SetEdits(A, B)
    ensures ts[k].boundary in Residual(SetEdits(A, B)[ts[k].start], TouchLabels(ts[..k], ts[k].start)).sim
    ensures ts[k].boundary in Residual(SetEdits(A, B)[ts[k].end], TouchLabels(ts[..k], ts[k].end)).sim
  {
    var t := ts[k];
    var orig := SetEdits(A, B);
    assert t.boundary in SymmetricDifference(A[t.start], B[t.start]);
    assert t.boundary in SymmetricDifference(A[t.end], B[t.end]);
    ClaimMapMentions(ts[..k], t.start, t.boundary);
    ClaimMapMentions(ts[..k], t.end, t.boundary);
  }

  /** When `t` was accepted after `before`, one of its two positions had,
      once the labels of `before` ending there were taken out, differing
      labels on one side only, so no substitution was lost there. */
  predicate SideOnly(orig: map<int, Difference>, before: seq<Transposition>, t: Transposition) {
    t.start in orig && t.end in orig &&
    var ri := Residual(orig[t.start], TouchLabels(before, t.start));
    var rj := Residual(orig[t.end], TouchLabels(before, t.end));
    ri.aB == {} || ri.bA == {} || rj.aB == {} || rj.bA == {}
  }

  /** No transposition was accepted while both of its positions still held a
      substitution. */
  lemma FindAllKeepsSubstitutions(A: BoundaryString, B: BoundaryString, spans: set<nat>)
    requires |A| == |B| && Positive(spans)
    ensures forall k :: 0 <= k < |FindAll(A, B, spans, SetEdits(A, B)).ts| ==>
      SideOnly(SetEdits(A, B), FindAll(A, B, spans, SetEdits(A, B)).ts[..k], FindAll(A, B, spans, SetEdits(A, B)).ts[k])
  {
    var orig := SetEdits(A, B);
    FindAllInv(A, B, spans, orig);
    var ts := FindAll(A, B, spans, orig).ts;
    forall k | 0 <= k < |ts| ensures SideOnly(orig, ts[..k], ts[k]) {
      AcceptedSideOnly(A, B, spans, ts, k);
    }
  }

  lemma AcceptedSideOnly(A: BoundaryString, B: BoundaryString, spans: set<nat>, ts: seq<Transposition>, k: int)
    requires |A| == |B| && Admissible(A, B, spans, SetEdits(A, B), ts) && 0 <= k < |ts|
    ensures SideOnly(SetEdits(A, B), ts[..k], ts[k])
  {
    var orig := SetEdits(A, B);
    var t := ts[k];
    AdmissibleAt(A, B, spans, orig, ts, k);
    FreshAtEnds(A, B, spans, ts, k);
    var table := StripAll(orig, ts[..k]);
    StripAllEntry(orig, ts[..k], t.start);
    StripAllEntry(orig, ts[..k], t.end);
    ResidualWellFormed(orig[t.start], TouchLabels(ts[..k], t.start));
    ResidualWellFormed(orig[t.end], TouchLabels(ts[..k], t.end));
    assert !HasSubstitutions(t.start, t.end, t.boundary, table);
  }

  /** The number of differing labels recorded at positions below `n`. */
  function Total(m: map<int, Difference>, n: int): nat
    decreases if n > 0 then n else 0
  {
    if n <= 0 then 0 else Total(m, n - 1) + (if n - 1 in m then |m[n - 1].sim| else 0)
  }

  /** Discarding a recorded label below `n` lowers the total by one. */
  lemma {:induction false} TotalStrip(m: map<int, Difference>, p: int, d: Label, n: int)
    requires p in m && d in m[p].sim && 0 <= p < n
    ensures Total(Strip(m, p, d), n) + 1 == Total(m, n)
    decreases n
  {
    var q := n - 1;
    if p < q {
      TotalStrip(m, p, d, q);
    } else {
      TotalSame(m, Strip(m, p, d), q);
    }
    StripEntry(m, p, q, d);
  }

  /** Tables that agree below `n` have the same total. */
  lemma {:induction false} TotalSame(m: map<int, Difference>, m': map<int, Difference>, n: int)
    requires forall q :: 0 <= q < n ==> (q in m <==> q in m') && (q in m ==> m[q].sim == m'[q].sim)
    ensures Total(m, n) == Total(m', n)
    decreases if n > 0 then n else 0
  {
    if n > 0 {
      TotalSame(m, m', n - 1);
    }
  }

  /** Discarding a label at two distinct positions where it is recorded
      lowers the total by two. */
  lemma TotalStripTwo(m: map<int, Difference>, t: Transposition, n: int)
    requires t.start in m && t.end in m && t.start != t.end && 0 <= t.start < n && 0 <= t.end < n
    requires t.boundary in m[t.start].sim && t.boundary in m[t.end].sim
    ensures Total(Strip(Strip(m, t.start, t.boundary), t.end, t.boundary), n) + 2 == Total(m, n)
  {
    var m1 := Strip(m, t.start, t.boundary);
    TotalStrip(m, t.start, t.boundary, n);
    StripEntry(m, t.start, t.end, t.boundary);
    TotalStrip(m1, t.end, t.boundary, n);
  }

  /** Accepting `ts[m]` takes its label out at two positions of the table. */
  lemma StripAllTotalStep(A: BoundaryString, B: BoundaryString, spans: set<nat>, ts: seq<Transposition>, m: int, next: int)
    requires |A| == |B| && 0 <= m < |ts| && next == m + 1 && Admissible(A, B, spans, SetEdits(A, B), ts)
    ensures Total(StripAll(SetEdits(A, B), ts[..next]), |A|) + 2 == Total(StripAll(SetEdits(A, B), ts[..m]), |A|)
  {
    var orig := SetEdits(A, B);
    var t := ts[m];
    AdmissibleAt(A, B, spans, orig, ts, m);
    assert ts[..next] == ts[..m] + [t];
    StripAllSnoc(orig, ts[..m], t);
    FreshAtEnds(A, B, spans, ts, m);
    StripAllEntry(orig, ts[..m], t.start);
    StripAllEntry(orig, ts[..m], t.end);
    TotalStripTwo(StripAll(orig, ts[..m]), t, |A|);
  }

  /** Each transposition accepted takes its label out at two positions. */
  lemma {:induction false} StripAllTotal(A: BoundaryString, B: BoundaryString, spans: set<nat>, ts: seq<Transposition>, k: int)
    requires |A| == |B| && 0 <= k <= |ts| && Admissible(A, B, spans, SetEdits(A, B), ts)
    ensures Total(StripAll(SetEdits(A, B), ts[..k]), |A|) + 2 * k == Total(SetEdits(A, B), |A|)
    decreases k
  {
    if k == 0 {
      assert ts[..0] == [];
    } else {
      var m := k - 1;
      StripAllTotal(A, B, spans, ts, m);
      StripAllTotalStep(A, B, spans, ts, m, k);
    }
  }

  /** The table starts with one differing label per label of each symmetric
      difference; the finder leaves two fewer per transposition. */
  lemma FindAllCount(A: BoundaryString, B: BoundaryString, spans: set<nat>)
    requires |A| == |B| && Positive(spans)
    ensures Total(FindAll(A, B, spans, SetEdits(A, B)).table, |A|) + 2 * |FindAll(A, B, spans, SetEdits(A, B)).ts|
      == Total(SetEdits(A, B), |A|)
  {
    var orig := SetEdits(A, B);
    FindAllInv(A, B, spans, orig);
    var r := FindAll(A, B, spans, orig);
    StripAllTotal(A, B, spans, r.ts, |r.ts|);
    assert r.ts[..|r.ts|] == r.ts;
  }
}
