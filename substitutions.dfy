/** The substitution matcher: at one position, pair the labels found only in
    A with the labels found only in B so that the summed distance between
    paired labels is least, and report the unpaired labels as additions. */
module Substitutions {
  import opened Enumeration
  import opened Edits

  datatype Option<T> = None | Some(value: T)

  function Abs(x: int): nat {
    if x < 0 then -x else x
  }

  /** The counts of additions and substitutions at one position. The source
      divides with true division, so the substitution count is a real. */
  function AdditionsSubstitutions(d: set<Label>, a: set<Label>, b: set<Label>): (r: (nat, real))
    ensures d == a + b && a !! b ==>
      r.0 == Abs(|a| - |b|) && r.1 == Min(|a|, |b|) as real && r.0 as real + 2.0 * r.1 == |d| as real
  {
    var additions := Abs(|a| - |b|);
    (additions, (|d| - additions) as real / 2.0)
  }

  /** Python's zip: pairs up the two sequences, truncating the longer one. */
  function Zip(pa: seq<Label>, pb: seq<Label>): (r: seq<Substitution>)
    ensures |r| == Min(|pa|, |pb|)
    ensures forall k :: 0 <= k < |r| ==> r[k] == Substitution(pa[k], pb[k])
  {
    if pa == [] || pb == [] then [] else [Substitution(pa[0], pb[0])] + Zip(pa[1..], pb[1..])
  }

  /** The summed distance between the labels of each pair. */
  function Cost(ps: seq<Substitution>): nat {
    if ps == [] then 0 else Abs(ps[0].typeA - ps[0].typeB) + Cost(ps[1..])
  }

  /** Every label that takes part in one of the pairs, from either side. */
  function Labels(ps: seq<Substitution>): set<Label> {
    Elements(FirstSides(ps)) + Elements(SecondSides(ps))
  }

  lemma LabelsSnoc(ps: seq<Substitution>, k: int)
    requires 0 <= k < |ps|
    ensures Labels(ps[..k + 1]) == Labels(ps[..k]) + {ps[k].typeA, ps[k].typeB}
  {
    var p, q := ps[..k + 1], ps[..k];
    assert FirstSides(p) == FirstSides(q) + [ps[k].typeA];
    assert SecondSides(p) == SecondSides(q) + [ps[k].typeB];
    ElementsSnoc(FirstSides(q), ps[k].typeA);
    ElementsSnoc(SecondSides(q), ps[k].typeB);
  }

  lemma ElementsSnoc(s: seq<Label>, x: Label)
    ensures Elements(s + [x]) == Elements(s) + {x}
  {
    var r := s + [x];
    forall z ensures z in r <==> z in s || z == x {
      if z in s {
        var k :| 0 <= k < |s| && s[k] == z;
        assert r[k] == z;
      }
      if z == x { assert r[|s|] == z; }
    }
  }

  function Tag(xs: seq<Label>, side: Side): (r: seq<Addition>)
    ensures |r| == |xs| && forall k :: 0 <= k < |r| ==> r[k] == Addition(xs[k], side)
  {
    seq(|xs|, k requires 0 <= k < |xs| => Addition(xs[k], side))
  }

  /** The orderings of `s` that the matcher enumerates. */
  function Orderings(s: set<Label>): seq<seq<Label>> {
    Permutations(SortedElements(s))
  }

  /** The best pairing seen so far; `Unset` stands for the source's `delta is None`. */
  datatype Choice = Unset | Best(delta: nat, pairs: seq<Substitution>)

  function Consider(c: Choice, pairs: seq<Substitution>): Choice {
    if c.Unset? || Cost(pairs) < c.delta then Best(Cost(pairs), pairs) else c
  }

  /** The choice after the first `y` orderings of B have been tried against `pa`. */
  function ScanCols(c: Choice, pa: seq<Label>, pbs: seq<seq<Label>>, y: int): Choice
    requires 0 <= y <= |pbs|
  {
    if y == 0 then c else Consider(ScanCols(c, pa, pbs, y - 1), Zip(pa, pbs[y - 1]))
  }

  /** The choice after the first `x` orderings of A have been tried against every ordering of B. */
  function ScanRows(pas: seq<seq<Label>>, pbs: seq<seq<Label>>, x: int): Choice
    requires 0 <= x <= |pas|
  {
    if x == 0 then Unset else ScanCols(ScanRows(pas, pbs, x - 1), pas[x - 1], pbs, |pbs|)
  }

  function PairsOf(c: Choice): seq<Substitution> {
    match c
    case Unset => []
    case Best(_, pairs) => pairs
  }

  /** The pairing additions_substitutions_sets settles on. */
  function BestPairing(a: set<Label>, b: set<Label>): seq<Substitution> {
    var pas := Orderings(a);
    PairsOf(ScanRows(pas, Orderings(b), |pas|))
  }

  /** The additions and substitutions of one position: A-side additions in
      ascending order, then B-side additions in ascending order. */
  function PositionEdits(a: set<Label>, b: set<Label>): (seq<Addition>, seq<Substitution>) {
    var pairs := BestPairing(a, b);
    (Unpaired(a, b, Labels(pairs)), pairs)
  }

  /** The labels of `a`, then of `b`, that are not in `used`, each tagged with its side. */
  function Unpaired(a: set<Label>, b: set<Label>, used: set<Label>): seq<Addition> {
    Tag(SortedElements(a - used), SideA) + Tag(SortedElements(b - used), SideB)
  }

  function Chosen(delta: Option<nat>, pairs: seq<Substitution>): Choice {
    match delta
    case None => Unset
    case Some(d) => Best(d, pairs)
  }

  /** The search loop of additions_substitutions_sets over given lists of
      orderings: every ordering of A against every ordering of B, keeping
      the first pairing of least cost. */
  method SearchOrderings(pas: seq<seq<Label>>, pbs: seq<seq<Label>>) returns (substitutions: seq<Substitution>)
    ensures substitutions == PairsOf(ScanRows(pas, pbs, |pas|))
  {
    substitutions := [];
    var delta: Option<nat> := None;
    var x := 0;
    while x < |pas|
      invariant 0 <= x <= |pas|
      invariant delta.None? ==> substitutions == []
      invariant Chosen(delta, substitutions) == ScanRows(pas, pbs, x)
    {
      ghost var row := ScanRows(pas, pbs, x);
      var y := 0;
      while y < |pbs|
        invariant 0 <= y <= |pbs|
        invariant delta.None? ==> substitutions == []
        invariant Chosen(delta, substitutions) == ScanCols(row, pas[x], pbs, y)
      {
        var current := Zip(pas[x], pbs[y]);
        var currentDelta := Cost(current);
        ghost var before := Chosen(delta, substitutions);
        if delta.None? || currentDelta < delta.value {
          delta := Some(currentDelta);
          substitutions := current;
        }
        assert Chosen(delta, substitutions) == Consider(before, current);
        y := y + 1;
      }
      x := x + 1;
    }
  }

  /** The collection part of additions_substitutions_sets: gathers the labels
      the pairs use, then lists the labels of A, and after them those of B,
      that no pair uses. */
  method CollectAdditions(a: set<Label>, b: set<Label>, substitutions: seq<Substitution>)
    returns (added: seq<Addition>, substituted: seq<Label>)
    ensures Elements(substituted) == Labels(substitutions)
    ensures added == Unpaired(a, b, Labels(substitutions))
  {
    substituted := [];
    var k := 0;
    while k < |substitutions|
      invariant 0 <= k <= |substitutions|
      invariant Elements(substituted) == Labels(substitutions[..k])
    {
      ElementsCons2(substituted, substitutions[k].typeA, substitutions[k].typeB);
      LabelsSnoc(substitutions, k);
      substituted := substituted + [substitutions[k].typeA, substitutions[k].typeB];
      k := k + 1;
    }
    assert substitutions[..k] == substitutions;
    var used := Elements(substituted);
    added := [];
    var fromA := SortedElements(a - used);
    k := 0;
    while k < |fromA|
      invariant 0 <= k <= |fromA|
      invariant added == Tag(fromA[..k], SideA)
    {
      TagSnoc(fromA, k, SideA);
      added := added + [Addition(fromA[k], SideA)];
      k := k + 1;
    }
    assert fromA[..k] == fromA;
    assert added == Tag(fromA, SideA);
    var fromB := SortedElements(b - used);
    k := 0;
    while k < |fromB|
      invariant 0 <= k <= |fromB|
      invariant added == Tag(fromA, SideA) + Tag(fromB[..k], SideB)
    {
      AppendTagged(Tag(fromA, SideA), fromB, k, SideB);
      added := added + [Addition(fromB[k], SideB)];
      k := k + 1;
    }
    assert fromB[..k] == fromB;
    assert Tag(fromB[..k], SideB) == Tag(fromB, SideB);
    assert used == Labels(substitutions);
    assert added == Tag(fromA, SideA) + Tag(fromB, SideB);
  }

  lemma TagSnoc(xs: seq<Label>, k: int, side: Side)
    requires 0 <= k < |xs|
    ensures Tag(xs[..k + 1], side) == Tag(xs[..k], side) + [Addition(xs[k], side)]
  {
  }

  lemma AppendTagged(prefix: seq<Addition>, xs: seq<Label>, k: int, side: Side)
    requires 0 <= k < |xs|
    ensures prefix + Tag(xs[..k + 1], side) == (prefix + Tag(xs[..k], side)) + [Addition(xs[k], side)]
  {
    TagSnoc(xs, k, side);
  }

  /** additions_substitutions_sets: the pairing search, then the labels left
      unpaired; there are as many of them as labels of `d` no pair uses. */
  method AdditionsSubstitutionsSets(d: set<Label>, a: set<Label>, b: set<Label>)
    returns (added: seq<Addition>, substitutions: seq<Substitution>)
    requires d == a + b && a !! b
    ensures (added, substitutions) == PositionEdits(a, b)
    ensures |substitutions| == Min(|a|, |b|)
    ensures |added| == |d| - 2 * |substitutions|
  {
    substitutions := SearchOrderings(Orderings(a), Orderings(b));
    var substituted;
    added, substituted := CollectAdditions(a, b, substitutions);
    var additions := d - Elements(substituted);
    PositionEditsCount(a, b);
    assert |added| == |additions|;
  }

  lemma ElementsCons2(s: seq<Label>, x: Label, y: Label)
    ensures Elements(s + [x, y]) == Elements(s) + {x, y}
  {
    var r := s + [x, y];
    forall z ensures z in r <==> z in s || z == x || z == y {
      if z in s {
        var k :| 0 <= k < |s| && s[k] == z;
        assert r[k] == z;
      }
      if z == x { assert r[|s|] == z; }
      if z == y { assert r[|s| + 1] == z; }
    }
  }

  ghost predicate Earlier(x': int, y': int, x: int, y: int) {
    x' < x || (x' == x && y' < y)
  }

  function PairCost(pas: seq<seq<Label>>, pbs: seq<seq<Label>>, x: int, y: int): nat
    requires 0 <= x < |pas| && 0 <= y < |pbs|
  {
    Cost(Zip(pas[x], pbs[y]))
  }

  /** (x, y) is the first pairing, in enumeration order, of least cost. */
  ghost predicate FirstMinimal(pas: seq<seq<Label>>, pbs: seq<seq<Label>>, x: int, y: int) {
    0 <= x < |pas| && 0 <= y < |pbs| &&
    (forall x', y' :: 0 <= x' < |pas| && 0 <= y' < |pbs| ==> PairCost(pas, pbs, x, y) <= PairCost(pas, pbs, x', y')) &&
    (forall x', y' :: 0 <= x' < |pas| && 0 <= y' < |pbs| && Earlier(x', y', x, y) ==>
       PairCost(pas, pbs, x, y) < PairCost(pas, pbs, x', y'))
  }

  /** `c` is what the search holds once every pairing before (x, y) has been
      tried: the first pairing of least cost among them, found at (bestX, bestY). */
  ghost predicate Summary(pas: seq<seq<Label>>, pbs: seq<seq<Label>>, x: int, y: int,
                          c: Choice, bestX: int, bestY: int) {
    c.Best? && 0 <= bestX < |pas| && 0 <= bestY < |pbs| && Earlier(bestX, bestY, x, y) &&
    c.pairs == Zip(pas[bestX], pbs[bestY]) && c.delta == PairCost(pas, pbs, bestX, bestY) &&
    (forall x', y' :: 0 <= x' < |pas| && 0 <= y' < |pbs| && Earlier(x', y', x, y) ==>
       c.delta <= PairCost(pas, pbs, x', y')) &&
    (forall x', y' :: 0 <= x' < |pas| && 0 <= y' < |pbs| && Earlier(x', y', bestX, bestY) ==>
       c.delta < PairCost(pas, pbs, x', y'))
  }

  /** What the search knows after trying every pairing before (x, y). */
  lemma {:induction false} ScanSoFar(pas: seq<seq<Label>>, pbs: seq<seq<Label>>, x: int, y: int)
    returns (bestX: int, bestY: int)
    requires 0 <= x < |pas| && 0 <= y <= |pbs| && 0 < |pbs| && (x > 0 || y > 0)
    ensures Summary(pas, pbs, x, y, ScanCols(ScanRows(pas, pbs, x), pas[x], pbs, y), bestX, bestY)
    decreases x, y, 1
  {
    if y == 0 {
      bestX, bestY := ScanSoFar(pas, pbs, x - 1, |pbs|);
    } else {
      bestX, bestY := ScanStep(pas, pbs, x, y);
    }
  }

  /** Trying the pairing at (x, y - 1) extends the summary by one step. */
  lemma {:induction false} ScanStep(pas: seq<seq<Label>>, pbs: seq<seq<Label>>, x: int, y: int)
    returns (bestX: int, bestY: int)
    requires 0 <= x < |pas| && 0 < y <= |pbs|
    ensures Summary(pas, pbs, x, y, ScanCols(ScanRows(pas, pbs, x), pas[x], pbs, y), bestX, bestY)
    decreases x, y, 0
  {
    var c := ScanCols(ScanRows(pas, pbs, x), pas[x], pbs, y);
    var prev := ScanCols(ScanRows(pas, pbs, x), pas[x], pbs, y - 1);
    var cost := PairCost(pas, pbs, x, y - 1);
    assert c == Consider(prev, Zip(pas[x], pbs[y - 1]));
    if x == 0 && y == 1 {
      bestX, bestY := 0, 0;
      assert prev == Unset;
    } else {
      var px, py := ScanSoFar(pas, pbs, x, y - 1);
      if cost < prev.delta {
        bestX, bestY := x, y - 1;
        assert c == Best(cost, Zip(pas[x], pbs[y - 1]));
      } else {
        bestX, bestY := px, py;
        assert c == prev;
      }
      forall x', y' | 0 <= x' < |pas| && 0 <= y' < |pbs| && Earlier(x', y', x, y)
        ensures c.delta <= PairCost(pas, pbs, x', y')
      {
        if x' != x || y' != y - 1 {
          assert Earlier(x', y', x, y - 1);
        }
      }
      forall x', y' | 0 <= x' < |pas| && 0 <= y' < |pbs| && Earlier(x', y', bestX, bestY)
        ensures c.delta < PairCost(pas, pbs, x', y')
      {
        if bestX == x && bestY == y - 1 && (x' != px || y' != py) && Earlier(px, py, x', y') {
          assert Earlier(x', y', x, y - 1);
        }
      }
    }
  }

  /** Over any two non-empty lists of orderings, the search keeps the first pairing of least cost. */
  lemma SearchIsFirstMinimal(pas: seq<seq<Label>>, pbs: seq<seq<Label>>) returns (x: int, y: int)
    requires 0 < |pas| && 0 < |pbs|
    ensures FirstMinimal(pas, pbs, x, y)
    ensures PairsOf(ScanRows(pas, pbs, |pas|)) == Zip(pas[x], pbs[y])
  {
    x, y := ScanSoFar(pas, pbs, |pas| - 1, |pbs|);
  }

  /** The pairing the search keeps is the first one of least cost. */
  lemma BestPairingIsFirstMinimal(a: set<Label>, b: set<Label>) returns (x: int, y: int)
    ensures FirstMinimal(Orderings(a), Orderings(b), x, y)
    ensures BestPairing(a, b) == Zip(Orderings(a)[x], Orderings(b)[y])
  {
    PermutationsNonEmpty(SortedElements(a));
    PermutationsNonEmpty(SortedElements(b));
    x, y := SearchIsFirstMinimal(Orderings(a), Orderings(b));
  }

  /** The labels the pairs take from A, and from B, in order. */
  function FirstSides(ps: seq<Substitution>): (r: seq<Label>)
    ensures |r| == |ps| && forall k :: 0 <= k < |r| ==> r[k] == ps[k].typeA
  {
    seq(|ps|, k requires 0 <= k < |ps| => ps[k].typeA)
  }

  function SecondSides(ps: seq<Substitution>): (r: seq<Label>)
    ensures |r| == |ps| && forall k :: 0 <= k < |r| ==> r[k] == ps[k].typeB
  {
    seq(|ps|, k requires 0 <= k < |ps| => ps[k].typeB)
  }

  /** `ps` pairs labels of `a` with labels of `b`, using no label twice. */
  ghost predicate IsPairing(ps: seq<Substitution>, a: set<Label>, b: set<Label>) {
    (forall k :: 0 <= k < |ps| ==> ps[k].typeA in a && ps[k].typeB in b) &&
    Distinct(FirstSides(ps)) && Distinct(SecondSides(ps))
  }

  lemma IncreasingDistinct(s: seq<nat>)
    requires StrictlyIncreasing(s)
    ensures Distinct(s)
  {
  }

  lemma CardDifference(x: set<Label>, y: set<Label>)
    requires y <= x
    ensures |x - y| == |x| - |y|
  {
    assert (x - y) + y == x;
    assert (x - y) !! y;
  }

  /** `q` extended by the remaining elements of `s`, in ascending order, is an ordering of `s`. */
  lemma Extend(q: seq<Label>, s: set<Label>) returns (p: seq<Label>)
    requires Distinct(q) && Elements(q) <= s
    ensures IsPermutationOf(p, SortedElements(s)) && |p| == |s| && |q| <= |p| && p[..|q|] == q
  {
    var rest := SortedElements(s - Elements(q));
    p := q + rest;
    DistinctElementsCard(q);
    CardDifference(s, Elements(q));
    IncreasingDistinct(rest);
    assert p[..|q|] == q;
    forall x, y | 0 <= x < y < |p| ensures p[x] != p[y] {
      if y < |q| {
      } else if x < |q| {
        assert p[y] == rest[y - |q|] && p[y] in Elements(rest);
        assert p[x] in Elements(q);
      } else {
        assert p[x] == rest[x - |q|] && p[y] == rest[y - |q|];
      }
    }
    ElementsAppend(q, rest);
    assert Elements(q) + (s - Elements(q)) == s;
  }

  lemma ElementsAppend(q: seq<Label>, r: seq<Label>)
    ensures Elements(q + r) == Elements(q) + Elements(r)
  {
    var p := q + r;
    forall z ensures z in p <==> z in q || z in r {
      if z in q {
        var k :| 0 <= k < |q| && q[k] == z;
        assert p[k] == z;
      }
      if z in r {
        var k :| 0 <= k < |r| && r[k] == z;
        assert p[|q| + k] == z;
      }
      if z in p {
        var k :| 0 <= k < |p| && p[k] == z;
        if k < |q| {
          assert q[k] == z;
        } else {
          assert r[k - |q|] == z;
        }
      }
    }
  }

  /** The chosen pairing is a zip of an ordering of A with an ordering of B. */
  lemma BestPairingOrderings(a: set<Label>, b: set<Label>) returns (pa: seq<Label>, pb: seq<Label>)
    ensures IsPermutationOf(pa, SortedElements(a)) && IsPermutationOf(pb, SortedElements(b))
    ensures Elements(pa) == a && Elements(pb) == b && |pa| == |a| && |pb| == |b|
    ensures BestPairing(a, b) == Zip(pa, pb)
  {
    var x, y := BestPairingIsFirstMinimal(a, b);
    pa, pb := Orderings(a)[x], Orderings(b)[y];
    IncreasingDistinct(SortedElements(a));
    IncreasingDistinct(SortedElements(b));
    PermutationsSound(SortedElements(a), pa);
    PermutationsSound(SortedElements(b), pb);
  }

  /** The chosen pairing pairs as many labels as the smaller side holds, none twice. */
  lemma BestPairingShape(a: set<Label>, b: set<Label>)
    ensures IsPairing(BestPairing(a, b), a, b)
    ensures |BestPairing(a, b)| == Min(|a|, |b|)
  {
    var pa, pb := BestPairingOrderings(a, b);
    ZipPairing(pa, pb);
  }

  /** A zip of two duplicate-free sequences is a pairing of their elements. */
  lemma ZipPairing(pa: seq<Label>, pb: seq<Label>)
    requires Distinct(pa) && Distinct(pb)
    ensures IsPairing(Zip(pa, pb), Elements(pa), Elements(pb))
  {
    var ps := Zip(pa, pb);
    forall k | 0 <= k < |ps| ensures ps[k].typeA in Elements(pa) && ps[k].typeB in Elements(pb) {
      assert ps[k].typeA == pa[k] && ps[k].typeB == pb[k];
    }
    assert Distinct(FirstSides(ps)) by {
      forall i, j | 0 <= i < j < |ps| ensures FirstSides(ps)[i] != FirstSides(ps)[j] {
        assert FirstSides(ps)[i] == pa[i] && FirstSides(ps)[j] == pa[j];
      }
    }
    assert Distinct(SecondSides(ps)) by {
      forall i, j | 0 <= i < j < |ps| ensures SecondSides(ps)[i] != SecondSides(ps)[j] {
        assert SecondSides(ps)[i] == pb[i] && SecondSides(ps)[j] == pb[j];
      }
    }
  }

  /** No pairing of the same size has a smaller cost than the chosen one. */
  lemma BestPairingOptimal(a: set<Label>, b: set<Label>, ps: seq<Substitution>)
    requires IsPairing(ps, a, b) && |ps| == Min(|a|, |b|)
    ensures Cost(BestPairing(a, b)) <= Cost(ps)
  {
    var x, y := BestPairingIsFirstMinimal(a, b);
    var pa := Extend(FirstSides(ps), a);
    var pb := Extend(SecondSides(ps), b);
    ZipSides(ps, pa, pb);
    var x' := OrderingIndex(a, pa);
    var y' := OrderingIndex(b, pb);
    assert PairCost(Orderings(a), Orderings(b), x', y') == Cost(ps);
  }

  /** Zipping extensions of the two sides of `ps` gives `ps` back. */
  lemma ZipSides(ps: seq<Substitution>, pa: seq<Label>, pb: seq<Label>)
    requires |ps| <= |pa| && |ps| <= |pb| && Min(|pa|, |pb|) == |ps|
    requires pa[..|ps|] == FirstSides(ps) && pb[..|ps|] == SecondSides(ps)
    ensures Zip(pa, pb) == ps
  {
    forall k | 0 <= k < |ps| ensures pa[k] == ps[k].typeA && pb[k] == ps[k].typeB {
      assert pa[k] == pa[..|ps|][k];
      assert pb[k] == pb[..|ps|][k];
    }
  }

  /** Every ordering of `s` occurs in the enumeration. */
  lemma OrderingIndex(s: set<Label>, p: seq<Label>) returns (x: int)
    requires IsPermutationOf(p, SortedElements(s))
    ensures 0 <= x < |Orderings(s)| && Orderings(s)[x] == p
  {
    IncreasingDistinct(SortedElements(s));
    PermutationsComplete(SortedElements(s), p);
    x :| 0 <= x < |Orderings(s)| && Orderings(s)[x] == p;
  }

  lemma TagMembers(xs: seq<Label>, side: Side, l: Label, side': Side)
    ensures Addition(l, side') in Tag(xs, side) <==> side' == side && l in xs
  {
    var r := Tag(xs, side);
    if Addition(l, side') in r {
      var k :| 0 <= k < |r| && r[k] == Addition(l, side');
      assert xs[k] == l;
    }
    if side' == side && l in xs {
      var k :| 0 <= k < |xs| && xs[k] == l;
      assert r[k] == Addition(l, side');
    }
  }

  /** Each unpaired label is listed, with its side; nothing else is listed. */
  lemma UnpairedMembers(a: set<Label>, b: set<Label>, used: set<Label>, l: Label, side: Side)
    ensures Addition(l, side) in Unpaired(a, b, used) <==>
      l !in used && (if side == SideA then l in a else l in b)
  {
    var fromA, fromB := SortedElements(a - used), SortedElements(b - used);
    TagMembers(fromA, SideA, l, side);
    TagMembers(fromB, SideB, l, side);
    assert l in fromA <==> l in Elements(fromA);
    assert l in fromB <==> l in Elements(fromB);
  }

  lemma UnpairedCount(a: set<Label>, b: set<Label>, used: set<Label>)
    requires a !! b
    ensures |Unpaired(a, b, used)| == |a - used| + |b - used| == |(a + b) - used|
  {
    assert (a + b) - used == (a - used) + (b - used);
    assert (a - used) !! (b - used);
  }

  /** The pairs use exactly the first Min(|a|, |b|) labels of each chosen ordering. */
  lemma UsedLabels(a: set<Label>, b: set<Label>) returns (ua: set<Label>, ub: set<Label>)
    ensures Labels(BestPairing(a, b)) == ua + ub && ua <= a && ub <= b
    ensures |ua| == |ub| == |BestPairing(a, b)| == Min(|a|, |b|)
  {
    var pa, pb := BestPairingOrderings(a, b);
    ua, ub := ZipLabels(pa, pb);
  }

  /** A zip of two duplicate-free sequences uses the first Min(|pa|, |pb|) elements of each. */
  lemma ZipLabels(pa: seq<Label>, pb: seq<Label>) returns (ua: set<Label>, ub: set<Label>)
    requires Distinct(pa) && Distinct(pb)
    ensures Labels(Zip(pa, pb)) == ua + ub && ua <= Elements(pa) && ub <= Elements(pb)
    ensures |ua| == |ub| == Min(|pa|, |pb|)
  {
    var subs := Zip(pa, pb);
    var m := Min(|pa|, |pb|);
    ua, ub := Elements(pa[..m]), Elements(pb[..m]);
    assert FirstSides(subs) == pa[..m] && SecondSides(subs) == pb[..m];
    assert Distinct(pa[..m]) && Distinct(pb[..m]);
    DistinctElementsCard(pa[..m]);
    DistinctElementsCard(pb[..m]);
    ElementsPrefix(pa, m);
    ElementsPrefix(pb, m);
  }

  lemma ElementsPrefix(s: seq<Label>, m: int)
    requires 0 <= m <= |s|
    ensures Elements(s[..m]) <= Elements(s)
  {
    forall z | z in Elements(s[..m]) ensures z in Elements(s) {
      var k :| 0 <= k < m && s[..m][k] == z;
      assert s[k] == z;
    }
  }

  /** The counts of one position: the substitutions number the smaller side,
      each addition accounts for one label and each substitution for two, and
      the additions are exactly the labels of the difference left unpaired. */
  lemma PositionEditsCount(a: set<Label>, b: set<Label>)
    requires a !! b
    ensures |PositionEdits(a, b).1| == Min(|a|, |b|)
    ensures |PositionEdits(a, b).0| + 2 * |PositionEdits(a, b).1| == |a + b|
    ensures |PositionEdits(a, b).0| == |(a + b) - Labels(PositionEdits(a, b).1)|
  {
    var used := Labels(BestPairing(a, b));
    var ua, ub := UsedLabels(a, b);
    assert a - used == a - ua;
    assert b - used == b - ub;
    CardDifference(a, ua);
    CardDifference(b, ub);
    UnpairedCount(a, b, used);
  }

  /** The additions name each unpaired label once, with the side it comes from. */
  lemma PositionEditsAdditions(a: set<Label>, b: set<Label>, l: Label, side: Side)
    ensures Addition(l, side) in PositionEdits(a, b).0 <==>
      l !in Labels(PositionEdits(a, b).1) && (if side == SideA then l in a else l in b)
  {
    UnpairedMembers(a, b, Labels(BestPairing(a, b)), l, side);
  }

  /** The documented example: A-only labels {2, 3, 4} against B-only label {6}. */
  lemma DocumentedCounts(d: set<Label>, a: set<Label>, b: set<Label>)
    requires a == {2, 3, 4} && b == {6} && d == a + b
    ensures AdditionsSubstitutions(d, a, b) == (2, 1.0)
  {
    assert |a| == 3 && |b| == 1;
  }

  lemma DocumentedPairing(a: set<Label>, b: set<Label>)
    requires a == {2, 3, 4} && b == {6}
    ensures BestPairing(a, b) == [Substitution(4, 6)]
  {
    var subs := BestPairing(a, b);
    BestPairingShape(a, b);
    var ps := [Substitution(4, 6)];
    assert IsPairing(ps, a, b);
    BestPairingOptimal(a, b, ps);
    assert subs == [subs[0]];
    assert subs[0].typeB == 6;
  }

  lemma PositionEditsOf(a: set<Label>, b: set<Label>, subs: seq<Substitution>)
    requires BestPairing(a, b) == subs
    ensures PositionEdits(a, b) == (Unpaired(a, b, Labels(subs)), subs)
  {
  }

  lemma DocumentedPositionEdits(a: set<Label>, b: set<Label>)
    requires a == {2, 3, 4} && b == {6}
    ensures PositionEdits(a, b) == ([Addition(2, SideA), Addition(3, SideA)], [Substitution(4, 6)])
  {
    DocumentedPairing(a, b);
    var subs := [Substitution(4, 6)];
    PositionEditsOf(a, b, subs);
    LabelsSingle(subs[0]);
    DocumentedUnpaired(a, b, Labels(subs));
  }

  lemma LabelsSingle(t: Substitution)
    ensures Labels([t]) == {t.typeA, t.typeB}
  {
    assert FirstSides([t]) == [t.typeA] && SecondSides([t]) == [t.typeB];
  }

  lemma DocumentedUnpaired(a: set<Label>, b: set<Label>, used: set<Label>)
    requires a == {2, 3, 4} && b == {6} && used == {4, 6}
    ensures Unpaired(a, b, used) == [Addition(2, SideA), Addition(3, SideA)]
  {
    assert a - used == {2, 3} && b - used == {};
    assert Elements([2, 3]) == {2, 3} by {
      ElementsCons(2, [3]);
      ElementsCons(3, []);
    }
    SortedElementsUnique([2, 3], a - used);
    assert Tag([2, 3], SideA) == [Addition(2, SideA), Addition(3, SideA)];
  }
}
