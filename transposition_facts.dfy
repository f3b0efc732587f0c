/** What find_transpositions produces, stated over the list of accepted
    transpositions: the claims and the residual table are functions of that
    list, every accepted transposition is a genuine candidate that neither
    overlapped an earlier claim nor removed two substitutions, and the list
    is ordered by span and then by start position. */
module TranspositionFacts {
  import opened Enumeration
  import opened Edits
  import opened Transpositions

  predicate Touches(t: Transposition, p: int) {
    t.start == p || t.end == p
  }

  /** The labels of the transpositions in `ts` that have `p` as an endpoint. */
  function TouchLabels(ts: seq<Transposition>, p: int): set<Label> {
    set k | 0 <= k < |ts| && Touches(ts[k], p) :: ts[k].boundary
  }

  /** The claims the finder has recorded after accepting `ts`, in order. */
  function ClaimMap(ts: seq<Transposition>): map<int, seq<Transposition>>
    decreases |ts|
  {
    if ts == [] then map[]
    else
      var t := ts[|ts| - 1];
      Claim(Claim(ClaimMap(ts[..|ts| - 1]), t.start, t), t.end, t)
  }

  /** The table after the labels of `ts` were discarded at their endpoints. */
  function StripAll(orig: map<int, Difference>, ts: seq<Transposition>): map<int, Difference>
    decreases |ts|
  {
    if ts == [] then orig
    else
      var t := ts[|ts| - 1];
      Strip(Strip(StripAll(orig, ts[..|ts| - 1]), t.start, t.boundary), t.end, t.boundary)
  }

  /** A table record with the labels `ls` taken out of all three sets. */
  function Residual(e: Difference, ls: set<Label>): Difference {
    Difference(e.sim - ls, e.aB - ls, e.bA - ls)
  }

  lemma ResidualWellFormed(e: Difference, ls: set<Label>)
    requires WellFormed(e)
    ensures WellFormed(Residual(e, ls))
  {
  }

  lemma TouchLabelsSnoc(ts: seq<Transposition>, t: Transposition, p: int)
    ensures TouchLabels(ts + [t], p) == TouchLabels(ts, p) + (if Touches(t, p) then {t.boundary} else {})
  {
    var us := ts + [t];
    forall l ensures l in TouchLabels(us, p) <==> l in TouchLabels(ts, p) || (Touches(t, p) && l == t.boundary) {
      if l in TouchLabels(ts, p) {
        var k :| 0 <= k < |ts| && Touches(ts[k], p) && ts[k].boundary == l;
        assert us[k] == ts[k];
      }
      if Touches(t, p) && l == t.boundary {
        assert us[|ts|] == t;
      }
      if l in TouchLabels(us, p) {
        var k :| 0 <= k < |us| && Touches(us[k], p) && us[k].boundary == l;
        if k < |ts| {
          assert us[k] == ts[k];
        }
      }
    }
  }

  lemma BoundariesSnoc(xs: seq<Transposition>, t: Transposition)
    ensures Boundaries(xs + [t]) == Boundaries(xs) + {t.boundary}
  {
    var us := xs + [t];
    forall l ensures l in Boundaries(us) <==> l in Boundaries(xs) || l == t.boundary {
      if l in Boundaries(xs) {
        var k :| 0 <= k < |xs| && xs[k].boundary == l;
        assert us[k] == xs[k];
      }
      if l == t.boundary {
        assert us[|xs|] == t;
      }
      if l in Boundaries(us) {
        var k :| 0 <= k < |us| && us[k].boundary == l;
        if k < |xs| {
          assert us[k] == xs[k];
        }
      }
    }
  }

  /** A position is claimed for label `d` exactly when an accepted
      transposition of `d` ends there. */
  lemma {:induction false} ClaimMapMentions(ts: seq<Transposition>, p: int, d: Label)
    ensures CheckPosition(ClaimMap(ts), p, d) <==> d in TouchLabels(ts, p)
    decreases |ts|
  {
    if ts == [] {
    } else {
      var n := |ts| - 1;
      var t := ts[n];
      var prefix := ts[..n];
      assert ts == prefix + [t];
      ClaimMapMentions(prefix, p, d);
      TouchLabelsSnoc(prefix, t, p);
      var m := ClaimMap(prefix);
      var m1 := Claim(m, t.start, t);
      if p == t.end {
        BoundariesSnoc(if p in m1 then m1[p] else [], t);
        if p == t.start {
          BoundariesSnoc(if p in m then m[p] else [], t);
        }
      } else if p == t.start {
        BoundariesSnoc(if p in m then m[p] else [], t);
      }
    }
  }

  /** The residual table keeps every key of the original table and holds, at
      each of them, the original record less the labels of the accepted
      transpositions ending there. */
  lemma {:induction false} StripAllEntry(orig: map<int, Difference>, ts: seq<Transposition>, p: int)
    ensures p in StripAll(orig, ts) <==> p in orig
    ensures p in orig ==> StripAll(orig, ts)[p] == Residual(orig[p], TouchLabels(ts, p))
    decreases |ts|
  {
    if ts == [] {
      assert TouchLabels(ts, p) == {};
      if p in orig {
        assert Residual(orig[p], {}) == orig[p];
      }
    } else {
      var n := |ts| - 1;
      var t := ts[n];
      var prefix := ts[..n];
      assert ts == prefix + [t];
      StripAllEntry(orig, prefix, p);
      TouchLabelsSnoc(prefix, t, p);
      var m := StripAll(orig, prefix);
      var m1 := Strip(m, t.start, t.boundary);
      StripEntry(m, t.start, p, t.boundary);
      StripEntry(m1, t.end, p, t.boundary);
      if p in orig {
        ResidualAdd(orig[p], TouchLabels(prefix, p), t.boundary);
      }
    }
  }

  lemma StripEntry(m: map<int, Difference>, p: int, q: int, d: Label)
    ensures q in Strip(m, p, d) <==> q in m
    ensures q in m ==> Strip(m, p, d)[q] == if q == p then Without(m[q], d) else m[q]
  {
  }

  lemma ResidualAdd(e: Difference, ls: set<Label>, d: Label)
    ensures Without(Residual(e, ls), d) == Residual(e, ls + {d})
    ensures Without(Without(Residual(e, ls), d), d) == Residual(e, ls + {d})
  {
  }

  lemma StripAllKeys(orig: map<int, Difference>, ts: seq<Transposition>)
    ensures forall p :: p in StripAll(orig, ts) <==> p in orig
  {
    forall p ensures p in StripAll(orig, ts) <==> p in orig {
      StripAllEntry(orig, ts, p);
    }
  }

  /** The span of a transposition: the number of positions from its start to
      its end, both included. */
  function Span(t: Transposition): int {
    t.end - t.start + 1
  }

  /** `t` is a candidate the finder may consider: both endpoints inside the
      strings, a span taken from `spans` and a label from the four-way
      intersection of the symmetric differences. */
  ghost predicate Proper(A: BoundaryString, B: BoundaryString, spans: set<nat>, t: Transposition)
    requires |A| == |B|
  {
    0 <= t.start <= t.end < |A| && Span(t) in spans && t.boundary in Candidates(A, B, t.start, t.end)
  }

  /** When it was accepted after `before`, `t` neither overlapped an earlier
      transposition of its label nor removed two substitutions. */
  predicate Free(orig: map<int, Difference>, before: seq<Transposition>, t: Transposition) {
    !OverlapsExisting(t.start, t.end, t.boundary, ClaimMap(before)) &&
    !HasSubstitutions(t.start, t.end, t.boundary, StripAll(orig, before))
  }

  ghost predicate Admissible(A: BoundaryString, B: BoundaryString, spans: set<nat>, orig: map<int, Difference>, ts: seq<Transposition>)
    requires |A| == |B|
  {
    forall k :: 0 <= k < |ts| ==> Proper(A, B, spans, ts[k]) && Free(orig, ts[..k], ts[k])
  }

  /** `t` comes no later than the pair of span `n` starting at `i`. */
  predicate NoLater(t: Transposition, n: int, i: int) {
    Span(t) < n || (Span(t) == n && t.start <= i)
  }

  /** Ascending span, then ascending start. */
  ghost predicate Ordered(ts: seq<Transposition>) {
    forall a, b :: 0 <= a < b < |ts| ==> NoLater(ts[a], Span(ts[b]), ts[b].start)
  }

  /** Every transposition of `ts` comes before the pair of span `n` starting at `k`. */
  ghost predicate AllBefore(ts: seq<Transposition>, n: int, k: int) {
    forall x :: 0 <= x < |ts| ==> Span(ts[x]) < n || (Span(ts[x]) == n && ts[x].start < k)
  }

  /** The claims and the table of a state are those of its transpositions. */
  ghost predicate Consistent(orig: map<int, Difference>, s: Scan) {
    s.claimed == ClaimMap(s.ts) && s.table == StripAll(orig, s.ts)
  }

  ghost predicate Inv(A: BoundaryString, B: BoundaryString, spans: set<nat>, orig: map<int, Difference>, s: Scan)
    requires |A| == |B|
  {
    Consistent(orig, s) && Admissible(A, B, spans, orig, s.ts) && Ordered(s.ts)
  }

  lemma ClaimMapSnoc(ts: seq<Transposition>, t: Transposition)
    ensures ClaimMap(ts + [t]) == Claim(Claim(ClaimMap(ts), t.start, t), t.end, t)
  {
    assert (ts + [t])[..|ts|] == ts;
  }

  lemma StripAllSnoc(orig: map<int, Difference>, ts: seq<Transposition>, t: Transposition)
    ensures StripAll(orig, ts + [t]) == Strip(Strip(StripAll(orig, ts), t.start, t.boundary), t.end, t.boundary)
  {
    assert (ts + [t])[..|ts|] == ts;
  }

  lemma AdmissibleSnoc(A: BoundaryString, B: BoundaryString, spans: set<nat>, orig: map<int, Difference>, ts: seq<Transposition>, t: Transposition)
    requires |A| == |B| && Admissible(A, B, spans, orig, ts)
    requires Proper(A, B, spans, t) && Free(orig, ts, t)
    ensures Admissible(A, B, spans, orig, ts + [t])
  {
    var us := ts + [t];
    forall k | 0 <= k < |us| ensures Proper(A, B, spans, us[k]) && Free(orig, us[..k], us[k]) {
      if k < |ts| {
        assert us[..k] == ts[..k] && us[k] == ts[k];
      } else {
        assert us[..k] == ts;
      }
    }
  }

  lemma OrderedSnoc(ts: seq<Transposition>, t: Transposition, n: int, next: int)
    requires Ordered(ts) && AllBefore(ts, n, next) && Span(t) == n && next == t.start + 1
    ensures Ordered(ts + [t]) && AllBefore(ts + [t], n, next)
  {
    var us := ts + [t];
    forall a, b | 0 <= a < b < |us| ensures NoLater(us[a], Span(us[b]), us[b].start) {
      if b < |ts| {
        assert us[a] == ts[a] && us[b] == ts[b];
      } else {
        assert us[a] == ts[a];
      }
    }
    forall x | 0 <= x < |us| ensures Span(us[x]) < n || (Span(us[x]) == n && us[x].start < next) {
      if x < |ts| {
        assert us[x] == ts[x];
      }
    }
  }

  lemma ProperOf(A: BoundaryString, B: BoundaryString, spans: set<nat>, i: int, j: int, n: int, d: Label)
    requires |A| == |B| && 0 <= i <= j < |A| && j == i + n - 1 && n in spans && d in Candidates(A, B, i, j)
    ensures Proper(A, B, spans, Transposition(i, j, d))
    ensures Span(Transposition(i, j, d)) == n
  {
  }

  lemma BeforeWeaken(ts: seq<Transposition>, n: int, k: int, k': int)
    requires AllBefore(ts, n, k) && k <= k'
    ensures AllBefore(ts, n, k')
  {
  }

  lemma BeforeRaise(ts: seq<Transposition>, n: int, k: int, n': int)
    requires AllBefore(ts, n, k) && n < n'
    ensures AllBefore(ts, n', 0)
  {
  }

  /** One candidate keeps the invariant and stays before the next pair. */
  lemma TryInv(A: BoundaryString, B: BoundaryString, spans: set<nat>, orig: map<int, Difference>, s: Scan,
               i: int, j: int, n: int, next: int, d: Label)
    requires |A| == |B| && Inv(A, B, spans, orig, s)
    requires 0 <= i <= j < |A| && j == i + n - 1 && next == i + 1 && n in spans && d in Candidates(A, B, i, j)
    requires AllBefore(s.ts, n, next)
    ensures Inv(A, B, spans, orig, Try(s, i, j, d))
    ensures AllBefore(Try(s, i, j, d).ts, n, next)
  {
    var t := Transposition(i, j, d);
    ProperOf(A, B, spans, i, j, n, d);
    if !OverlapsExisting(i, j, d, s.claimed) && !HasSubstitutions(i, j, d, s.table) {
      ClaimMapSnoc(s.ts, t);
      StripAllSnoc(orig, s.ts, t);
      AdmissibleSnoc(A, B, spans, orig, s.ts, t);
      OrderedSnoc(s.ts, t, n, next);
    }
  }

  lemma {:induction false} TryLabelsInv(A: BoundaryString, B: BoundaryString, spans: set<nat>, orig: map<int, Difference>,
                                        s: Scan, i: int, j: int, n: int, next: int, ds: seq<Label>, k: int)
    requires |A| == |B| && Inv(A, B, spans, orig, s)
    requires 0 <= i <= j < |A| && j == i + n - 1 && next == i + 1 && n in spans && 0 <= k <= |ds|
    requires forall x :: 0 <= x < |ds| ==> ds[x] in Candidates(A, B, i, j)
    requires AllBefore(s.ts, n, next)
    ensures Inv(A, B, spans, orig, TryLabels(s, i, j, ds, k))
    ensures AllBefore(TryLabels(s, i, j, ds, k).ts, n, next)
  {
    if k > 0 {
      var m := k - 1;
      TryLabelsInv(A, B, spans, orig, s, i, j, n, next, ds, m);
      TryLabelsStep(s, i, j, ds, m, k);
      TryInv(A, B, spans, orig, TryLabels(s, i, j, ds, m), i, j, n, next, ds[m]);
    }
  }

  lemma SortedCandidates(A: BoundaryString, B: BoundaryString, i: int, j: int, ds: seq<Label>)
    requires |A| == |B| && 0 <= i < |A| && 0 <= j < |A| && ds == SortedElements(Candidates(A, B, i, j))
    ensures forall x :: 0 <= x < |ds| ==> ds[x] in Candidates(A, B, i, j)
  {
    forall x | 0 <= x < |ds| ensures ds[x] in Candidates(A, B, i, j) {
      assert ds[x] in Elements(ds);
    }
  }

  lemma {:induction false} TryStartsInv(A: BoundaryString, B: BoundaryString, spans: set<nat>, orig: map<int, Difference>,
                                        s: Scan, n: int, k: int)
    requires |A| == |B| && Inv(A, B, spans, orig, s)
    requires n >= 1 && n in spans && 0 <= k <= Starts(|A|, n)
    requires AllBefore(s.ts, n, 0)
    ensures Inv(A, B, spans, orig, TryStarts(A, B, s, n, k))
    ensures AllBefore(TryStarts(A, B, s, n, k).ts, n, k)
  {
    if k > 0 {
      var i := k - 1;
      var j := i + n - 1;
      TryStartsInv(A, B, spans, orig, s, n, i);
      var before := TryStarts(A, B, s, n, i);
      BeforeWeaken(before.ts, n, i, k);
      TryStartsStep(A, B, s, n, i, j, k);
      var ds := SortedElements(Candidates(A, B, i, j));
      TryPairAtLabels(A, B, before, i, j, ds);
      SortedCandidates(A, B, i, j, ds);
      TryLabelsInv(A, B, spans, orig, before, i, j, n, k, ds, |ds|);
    }
  }

  /** After the first `x` spans of `ns`, every transposition comes before the
      spans still to try. */
  ghost predicate SpansDone(ts: seq<Transposition>, ns: seq<nat>, x: int, len: int)
    requires 0 <= x <= |ns|
  {
    x > 0 ==> AllBefore(ts, ns[x - 1], len)
  }

  /** Trying every start of the span `ns[m]` keeps the invariant. */
  lemma TrySpansStepInv(A: BoundaryString, B: BoundaryString, spans: set<nat>, orig: map<int, Difference>,
                        s: Scan, ns: seq<nat>, m: int, next: int)
    requires |A| == |B| && 0 <= m < |ns| && next == m + 1 && StrictlyIncreasing(ns)
    requires forall y :: 0 <= y < |ns| ==> ns[y] >= 1 && ns[y] in spans
    requires Inv(A, B, spans, orig, TrySpans(A, B, s, ns, m))
    requires m == 0 ==> TrySpans(A, B, s, ns, m).ts == []
    requires SpansDone(TrySpans(A, B, s, ns, m).ts, ns, m, |A|)
    ensures Inv(A, B, spans, orig, TrySpans(A, B, s, ns, next))
    ensures SpansDone(TrySpans(A, B, s, ns, next).ts, ns, next, |A|)
  {
    var before := TrySpans(A, B, s, ns, m);
    var n := ns[m];
    if m > 0 {
      BeforeRaise(before.ts, ns[m - 1], |A|, n);
    }
    TryStartsInv(A, B, spans, orig, before, n, Starts(|A|, n));
    TrySpansStep(A, B, s, ns, m, next);
    BeforeWeaken(TryStarts(A, B, before, n, Starts(|A|, n)).ts, n, Starts(|A|, n), |A|);
  }

  lemma {:induction false} TrySpansInv(A: BoundaryString, B: BoundaryString, spans: set<nat>, orig: map<int, Difference>,
                                       s: Scan, ns: seq<nat>, x: int)
    requires |A| == |B| && Inv(A, B, spans, orig, s) && s.ts == []
    requires 0 <= x <= |ns| && StrictlyIncreasing(ns)
    requires forall y :: 0 <= y < |ns| ==> ns[y] >= 1 && ns[y] in spans
    ensures Inv(A, B, spans, orig, TrySpans(A, B, s, ns, x))
    ensures x == 0 ==> TrySpans(A, B, s, ns, x).ts == []
    ensures SpansDone(TrySpans(A, B, s, ns, x).ts, ns, x, |A|)
  {
    if x > 0 {
      var m := x - 1;
      TrySpansInv(A, B, spans, orig, s, ns, m);
      TrySpansStepInv(A, B, spans, orig, s, ns, m, x);
    }
  }

  lemma FindAllInv(A: BoundaryString, B: BoundaryString, spans: set<nat>, orig: map<int, Difference>)
    requires |A| == |B| && Positive(spans)
    ensures Inv(A, B, spans, orig, FindAll(A, B, spans, orig))
  {
    var ns := SortedElements(spans);
    FindAllFolds(A, B, spans, orig, ns);
    forall y | 0 <= y < |ns| ensures ns[y] in spans {
      assert ns[y] in Elements(ns);
    }
    TrySpansInv(A, B, spans, orig, Scan([], map[], orig), ns, |ns|);
  }
}
