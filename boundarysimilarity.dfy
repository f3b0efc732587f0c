/** Boundary similarity (B) of two boundary strings: the edit lists of the
    boundary edit distance, weighted by caller-supplied functions, set
    against the number of boundaries the two strings agree on. */
module BoundarySimilarity {
  import opened Enumeration
  import opened Edits
  import opened EditDistance

  datatype Result<T> = Success(value: T) | Failure(error: string)

  /** The weighting functions of a comparison: one for the additions, one
      for the substitutions (also given the largest and the smallest boundary
      type) and one for the transpositions (also given the maximum span). */
  datatype Weights = Weights(
    additions: seq<Addition> -> real,
    substitutions: (seq<Substitution>, Label, Label) -> real,
    transpositions: (seq<Transposition>, int) -> real)

  /** Python's max over a set of boundary types. */
  function Largest(s: set<Label>): (r: Label)
    requires s != {}
    ensures r in s && forall x :: x in s ==> x <= r
  {
    var xs := SortedElements(s);
    assert xs[|xs| - 1] in Elements(xs);
    forall x | x in s ensures x <= xs[|xs| - 1] {
      var k :| 0 <= k < |xs| && xs[k] == x;
    }
    xs[|xs| - 1]
  }

  /** Python's min over a set of boundary types. */
  function Smallest(s: set<Label>): (r: Label)
    requires s != {}
    ensures r in s && forall x :: x in s ==> r <= x
  {
    var xs := SortedElements(s);
    assert xs[0] in Elements(xs);
    forall x | x in s ensures xs[0] <= x {
      var k :| 0 <= k < |xs| && xs[k] == x;
    }
    xs[0]
  }

  /** The boundaries placed by both strings, at positions below `n`. */
  function Matches(A: BoundaryString, B: BoundaryString, n: int): nat
    requires |A| == |B| && n <= |A|
    decreases if n > 0 then n else 0
  {
    if n <= 0 then 0 else Matches(A, B, n - 1) + |A[n - 1] * B[n - 1]|
  }

  /** The boundaries placed by either string, counted once per string, at
      positions below `n`. */
  function BoundariesAll(A: BoundaryString, B: BoundaryString, n: int): nat
    requires |A| == |B| && n <= |A|
    decreases if n > 0 then n else 0
  {
    if n <= 0 then 0 else BoundariesAll(A, B, n - 1) + |A[n - 1]| + |B[n - 1]|
  }

  lemma CountsStep(A: BoundaryString, B: BoundaryString, p: int, next: int)
    requires |A| == |B| && 0 <= p < |A| && next == p + 1
    ensures Matches(A, B, next) == Matches(A, B, p) + |A[p] * B[p]|
    ensures DifferingLabels(A, B, next) == DifferingLabels(A, B, p) + |SymmetricDifference(A[p], B[p])|
    ensures BoundariesAll(A, B, next) == BoundariesAll(A, B, p) + |A[p]| + |B[p]|
  {
  }

  /** The per-position loop of the similarity: matches, full misses and
      boundaries over the zipped positions. */
  method CountBoundaries(A: BoundaryString, B: BoundaryString) returns (matches: nat, fullMisses: nat, boundariesAll: nat)
    requires |A| == |B|
    ensures matches == Matches(A, B, |A|)
    ensures fullMisses == DifferingLabels(A, B, |A|)
    ensures boundariesAll == BoundariesAll(A, B, |A|)
  {
    matches, fullMisses, boundariesAll := 0, 0, 0;
    var p := 0;
    while p < |A|
      invariant 0 <= p <= |A|
      invariant matches == Matches(A, B, p)
      invariant fullMisses == DifferingLabels(A, B, p)
      invariant boundariesAll == BoundariesAll(A, B, p)
    {
      var setA, setB := A[p], B[p];
      matches := matches + |setA * setB|;
      fullMisses := fullMisses + |SymmetricDifference(setA, setB)|;
      boundariesAll := boundariesAll + |setA| + |setB|;
      var next := p + 1;
      CountsStep(A, B, p, next);
      p := next;
    }
  }

  /** At one position, a label placed by both strings counts twice among the
      boundaries and once as a match; one placed by only one string counts once
      among the boundaries and once as a full miss. */
  lemma PositionCounts(x: set<Label>, y: set<Label>)
    ensures |SymmetricDifference(x, y)| + 2 * |x * y| == |x| + |y|
  {
    assert x == (x - y) + (x * y) && (x - y) !! (x * y);
    assert y == (y - x) + (x * y) && (y - x) !! (x * y);
    assert (x - y) !! (y - x);
  }

  /** Summed over the positions: full_misses + 2 * matches == boundaries_all. */
  lemma {:induction false} MissesAndMatches(A: BoundaryString, B: BoundaryString, n: int)
    requires |A| == |B| && n <= |A|
    ensures DifferingLabels(A, B, n) + 2 * Matches(A, B, n) == BoundariesAll(A, B, n)
    decreases if n > 0 then n else 0
  {
    if n > 0 {
      MissesAndMatches(A, B, n - 1);
      PositionCounts(A[n - 1], B[n - 1]);
    }
  }

  /** What __boundary_similarity__ returns. */
  datatype Parts = Parts(pbs: int, countEdits: real,
                         additions: seq<Addition>, substitutions: seq<Substitution>, transpositions: seq<Transposition>,
                         fullMisses: nat, boundariesAll: nat, matches: nat)

  /** The weighted edit count: the weights of the three edit lists, added. */
  function CountEdits(w: Weights, e: EditSets, boundaryTypes: set<Label>, nt: int): real
    requires boundaryTypes != {}
  {
    w.additions(e.additions) +
    w.substitutions(e.substitutions, Largest(boundaryTypes), Smallest(boundaryTypes)) +
    w.transpositions(e.transpositions, nt)
  }

  /** The parts of the similarity of A and B. */
  function PartsOf(A: BoundaryString, B: BoundaryString, boundaryTypes: set<Label>, nt: int, w: Weights): Result<Parts>
    requires |A| == |B|
  {
    PartsFrom(A, B, Distance(A, B, nt), boundaryTypes, nt, w)
  }

  /** The parts of the similarity of A and B once their edit lists `e` are
      known: the weighted edit count needs the largest and smallest boundary
      type, so an empty set of types fails. */
  function PartsFrom(A: BoundaryString, B: BoundaryString, e: EditSets, boundaryTypes: set<Label>, nt: int, w: Weights): Result<Parts>
    requires |A| == |B|
  {
    if boundaryTypes == {} then Failure("max() arg is an empty sequence")
    else
      var countEdits := CountEdits(w, e, boundaryTypes, nt);
      Success(Parts(|B| * |boundaryTypes|, countEdits, e.additions, e.substitutions, e.transpositions,
                    DifferingLabels(A, B, |A|), BoundariesAll(A, B, |A|), Matches(A, B, |A|)))
  }

  method SimilarityParts(A: BoundaryString, B: BoundaryString, boundaryTypes: set<Label>, nt: int, w: Weights)
    returns (r: Result<Parts>)
    requires |A| == |B|
    ensures r == PartsOf(A, B, boundaryTypes, nt, w)
  {
    var additions, substitutions, transpositions := BoundaryEditDistance(A, B, nt);
    var pbs := |B| * |boundaryTypes|;
    if boundaryTypes == {} {
      return Failure("max() arg is an empty sequence");
    }
    var countEdits := CountEdits(w, EditSets(additions, substitutions, transpositions), boundaryTypes, nt);
    var matches, fullMisses, boundariesAll := CountBoundaries(A, B);
    r := Success(Parts(pbs, countEdits, additions, substitutions, transpositions, fullMisses, boundariesAll, matches));
  }

  /** What boundary_similarity returns: the ratio, or with `return_parts`
      its numerator and denominator together with the edit lists. */
  datatype Score =
    | Ratio(value: real)
    | Fraction(numerator: real, denominator: nat,
               additions: seq<Addition>, substitutions: seq<Substitution>, transpositions: seq<Transposition>)

  /** The unweighted edit count plus the matches. */
  function Denominator(p: Parts): nat {
    |p.additions| + |p.substitutions| + |p.transpositions| + p.matches
  }

  function ScoreOf(p: Parts, returnParts: bool): Score {
    var denominator := Denominator(p);
    var numerator := denominator as real - p.countEdits;
    if returnParts then Fraction(numerator, denominator, p.additions, p.substitutions, p.transpositions)
    else if denominator > 0 then Ratio(numerator / denominator as real)
    else Ratio(1.0)
  }

  function SimilarityFor(A: BoundaryString, B: BoundaryString, boundaryTypes: set<Label>, nt: int, w: Weights,
                         returnParts: bool): Result<Score>
    requires |A| == |B|
  {
    match PartsOf(A, B, boundaryTypes, nt, w)
    case Failure(e) => Failure(e)
    case Success(p) => Success(ScoreOf(p, returnParts))
  }

  method Similarity(A: BoundaryString, B: BoundaryString, boundaryTypes: set<Label>, nt: int, w: Weights,
                    returnParts: bool) returns (r: Result<Score>)
    requires |A| == |B|
    ensures r == SimilarityFor(A, B, boundaryTypes, nt, w, returnParts)
  {
    var values := SimilarityParts(A, B, boundaryTypes, nt, w);
    if values.Failure? {
      return Failure(values.error);
    }
    r := Success(ScoreOf(values.value, returnParts));
  }

  /** The comparison fails exactly when no boundary type is given. */
  lemma PartsFailure(A: BoundaryString, B: BoundaryString, boundaryTypes: set<Label>, nt: int, w: Weights)
    requires |A| == |B|
    ensures PartsOf(A, B, boundaryTypes, nt, w).Failure? <==> boundaryTypes == {}
    ensures SimilarityFor(A, B, boundaryTypes, nt, w, false).Failure? <==> boundaryTypes == {}
  {
  }

  /** The parts account for every boundary: each full miss lands in one
      edit (two per substitution or transposition), and each boundary is
      either a full miss or one half of a match. */
  lemma PartsAccounting(A: BoundaryString, B: BoundaryString, boundaryTypes: set<Label>, nt: int, w: Weights)
    requires |A| == |B| && boundaryTypes != {}
    ensures var p := PartsOf(A, B, boundaryTypes, nt, w).value;
      p.fullMisses == |p.additions| + 2 * |p.substitutions| + 2 * |p.transpositions| &&
      p.fullMisses + 2 * p.matches == p.boundariesAll
  {
    DistanceConservation(A, B, nt);
    MissesAndMatches(A, B, |A|);
  }

  lemma {:induction false} MatchesZero(A: BoundaryString, B: BoundaryString, n: int)
    requires |A| == |B| && 0 <= n <= |A|
    ensures Matches(A, B, n) == 0 <==> forall q :: 0 <= q < n ==> A[q] * B[q] == {}
    decreases n
  {
    if n > 0 {
      MatchesZero(A, B, n - 1);
    }
  }

  /** The parts carry the edit lists of the distance unchanged, the number
      of potential boundaries of B for the given types, and the sum of the
      three weighted counts. */
  lemma PartsContents(A: BoundaryString, B: BoundaryString, boundaryTypes: set<Label>, nt: int, w: Weights)
    requires |A| == |B| && boundaryTypes != {}
    ensures var p := PartsOf(A, B, boundaryTypes, nt, w).value;
      var e := Distance(A, B, nt);
      p.pbs == |B| * |boundaryTypes| &&
      p.additions == e.additions && p.substitutions == e.substitutions && p.transpositions == e.transpositions &&
      p.countEdits == w.additions(e.additions) +
        w.substitutions(e.substitutions, Largest(boundaryTypes), Smallest(boundaryTypes)) +
        w.transpositions(e.transpositions, nt)
  {
  }

  /** The fraction hands back the edit lists unchanged, its numerator is its
      denominator less the weighted edits, and the ratio is that fraction
      whenever its denominator is positive and 1 otherwise. */
  lemma ScoreFraction(p: Parts)
    ensures var f := ScoreOf(p, true);
      f.Fraction? && f.additions == p.additions && f.substitutions == p.substitutions &&
      f.transpositions == p.transpositions &&
      f.denominator == |p.additions| + |p.substitutions| + |p.transpositions| + p.matches &&
      f.numerator + p.countEdits == f.denominator as real &&
      ScoreOf(p, false) == if f.denominator > 0 then Ratio(f.numerator / f.denominator as real) else Ratio(1.0)
  {
  }

  /** The ratio falls back to 1 exactly when neither string places any
      boundary. */
  lemma DenominatorZero(A: BoundaryString, B: BoundaryString, boundaryTypes: set<Label>, nt: int, w: Weights)
    requires |A| == |B| && boundaryTypes != {}
    ensures Denominator(PartsOf(A, B, boundaryTypes, nt, w).value) == 0 <==>
      forall q :: 0 <= q < |A| ==> A[q] == {} && B[q] == {}
  {
    var p := PartsOf(A, B, boundaryTypes, nt, w).value;
    DistanceEmpty(A, B, nt);
    MatchesZero(A, B, |A|);
    if Denominator(p) == 0 {
      assert A == B;
      forall q | 0 <= q < |A| ensures A[q] == {} && B[q] == {} {
        assert A[q] * B[q] == A[q];
      }
    }
    if forall q :: 0 <= q < |A| ==> A[q] == {} && B[q] == {} {
      assert A == B;
    }
  }

  /** Nothing weighted against the denominator: the ratio is exactly 1. */
  lemma ScoreUnweighted(p: Parts)
    requires p.countEdits == 0.0
    ensures ScoreOf(p, false) == Ratio(1.0)
  {
    var d := Denominator(p) as real;
    if Denominator(p) > 0 {
      assert (d - p.countEdits) / d == 1.0;
    }
  }

  /** Weighted edits between none and all of the unweighted ones put the
      ratio between 0 and 1. */
  lemma ScoreBounds(p: Parts)
    requires 0.0 <= p.countEdits <= (|p.additions| + |p.substitutions| + |p.transpositions|) as real
    ensures 0.0 <= ScoreOf(p, false).value <= 1.0
  {
    var d := Denominator(p) as real;
    if Denominator(p) > 0 {
      var q := (d - p.countEdits) / d;
      assert q * d == d - p.countEdits;
    }
  }

  /** A string compared with itself is fully similar, provided that the
      weights of empty edit lists are zero. */
  lemma SelfSimilarity(A: BoundaryString, boundaryTypes: set<Label>, nt: int, w: Weights)
    requires boundaryTypes != {}
    requires w.additions([]) == 0.0 && w.transpositions([], nt) == 0.0
    requires forall hi, lo :: w.substitutions([], hi, lo) == 0.0
    ensures SimilarityFor(A, A, boundaryTypes, nt, w, false) == Success(Ratio(1.0))
  {
    DistanceEmpty(A, A, nt);
    var p := PartsOf(A, A, boundaryTypes, nt, w).value;
    assert p.countEdits == 0.0;
    ScoreUnweighted(p);
  }

  /** With weights between zero and the length of the weighted list, the
      similarity lies between 0 and 1. */
  lemma SimilarityBounds(A: BoundaryString, B: BoundaryString, boundaryTypes: set<Label>, nt: int, w: Weights)
    requires |A| == |B| && boundaryTypes != {}
    requires forall xs :: 0.0 <= w.additions(xs) <= |xs| as real
    requires forall xs, hi, lo :: 0.0 <= w.substitutions(xs, hi, lo) <= |xs| as real
    requires forall xs, n :: 0.0 <= w.transpositions(xs, n) <= |xs| as real
    ensures SimilarityFor(A, B, boundaryTypes, nt, w, false).Success?
    ensures 0.0 <= SimilarityFor(A, B, boundaryTypes, nt, w, false).value.value <= 1.0
  {
    var p := PartsOf(A, B, boundaryTypes, nt, w).value;
    ScoreBounds(p);
  }
}
