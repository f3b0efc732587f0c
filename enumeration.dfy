/** Ordered views of finite sets of labels and the permutation enumeration
    that the substitution matcher searches. Set iteration order, which the
    source leaves to the runtime, is fixed here as ascending order; the
    permutation order is the one of Python's itertools.permutations applied
    to a sorted sequence (first element by position, then recursively). */
module Enumeration {

  predicate Distinct<T(==)>(s: seq<T>) {
    forall x, y :: 0 <= x < y < |s| ==> s[x] != s[y]
  }

  predicate StrictlyIncreasing(s: seq<nat>) {
    forall x, y :: 0 <= x < y < |s| ==> s[x] < s[y]
  }

  function Elements<T(==)>(s: seq<T>): set<T> {
    set x | x in s
  }

  predicate IsLeast(m: nat, s: set<nat>) {
    m in s && forall y :: y in s ==> m <= y
  }

  function Min(x: int, y: int): int {
    if x <= y then x else y
  }

  lemma {:induction false} LeastExists(s: set<nat>)
    requires s != {}
    ensures exists m :: IsLeast(m, s)
    decreases |s|
  {
    var x :| x in s;
    if s - {x} == {} {
      assert s == {x};
      assert IsLeast(x, s);
    } else {
      LeastExists(s - {x});
      var m :| IsLeast(m, s - {x});
      var least := if x < m then x else m;
      forall y | y in s ensures least <= y {
        if y != x {
          assert y in s - {x};
        }
      }
      assert IsLeast(least, s);
    }
  }

  /** The elements of `s` in ascending order (Python's `sorted` on a set). */
  function SortedElements(s: set<nat>): (r: seq<nat>)
    ensures |r| == |s| && Elements(r) == s && StrictlyIncreasing(r)
    decreases |s|
  {
    if s == {} then []
    else
      LeastExists(s);
      var m :| IsLeast(m, s);
      var rest := SortedElements(s - {m});
      SortedCons(m, s, rest);
      [m] + rest
  }

  lemma SortedCons(m: nat, s: set<nat>, rest: seq<nat>)
    requires IsLeast(m, s)
    requires |rest| == |s - {m}| && Elements(rest) == s - {m} && StrictlyIncreasing(rest)
    ensures |[m] + rest| == |s| && Elements([m] + rest) == s && StrictlyIncreasing([m] + rest)
  {
    ElementsCons(m, rest);
    var r := [m] + rest;
    forall x, y | 0 <= x < y < |r| ensures r[x] < r[y] {
      assert r[y] == rest[y - 1];
      assert rest[y - 1] in Elements(rest);
      if x > 0 {
        assert r[x] == rest[x - 1];
      }
    }
  }

  lemma ElementsCons(x: nat, rest: seq<nat>)
    ensures Elements([x] + rest) == {x} + Elements(rest)
  {
    var r := [x] + rest;
    forall y ensures y in r <==> y == x || y in rest {
      if y in rest {
        var k :| 0 <= k < |rest| && rest[k] == y;
        assert r[k + 1] == y;
      }
    }
  }

  /** A sorted sequence is determined by its elements. */
  lemma {:induction false} SortedElementsUnique(r: seq<nat>, s: set<nat>)
    requires StrictlyIncreasing(r) && Elements(r) == s
    ensures r == SortedElements(s)
    decreases |r|
  {
    if r == [] {
      assert s == {};
    } else {
      SortedTail(r);
      SortedElementsUnique(r[1..], s - {r[0]});
      SortedElementsCons(r, s);
    }
  }

  lemma SortedElementsCons(r: seq<nat>, s: set<nat>)
    requires r != [] && IsLeast(r[0], s) && r[1..] == SortedElements(s - {r[0]})
    ensures r == SortedElements(s)
  {
    SortedElementsUnfold(s, r[0]);
    assert r == [r[0]] + r[1..];
  }

  /** The tail of a non-empty ascending sequence is ascending and holds the
      other elements; its head is the least. */
  lemma SortedTail(r: seq<nat>)
    requires StrictlyIncreasing(r) && r != []
    ensures StrictlyIncreasing(r[1..]) && Elements(r[1..]) == Elements(r) - {r[0]}
    ensures IsLeast(r[0], Elements(r))
  {
    var rest := r[1..];
    assert r == [r[0]] + rest;
    ElementsCons(r[0], rest);
    assert r[0] !in Elements(rest) by {
      forall k | 0 <= k < |rest| ensures rest[k] != r[0] {
        assert rest[k] == r[k + 1];
      }
    }
    assert StrictlyIncreasing(rest) by {
      forall x, y | 0 <= x < y < |rest| ensures rest[x] < rest[y] {
        assert rest[x] == r[x + 1] && rest[y] == r[y + 1];
      }
    }
    forall y | y in Elements(r) ensures r[0] <= y {
      var k :| 0 <= k < |r| && r[k] == y;
    }
  }

  /** The sorted elements of `s` start with its least element. */
  lemma SortedElementsUnfold(s: set<nat>, m: nat)
    requires IsLeast(m, s)
    ensures SortedElements(s) == [m] + SortedElements(s - {m})
  {
    LeastExists(s);
    var m' :| IsLeast(m', s);
    assert m' == m;
  }

  lemma {:induction false} DistinctElementsCard<T>(s: seq<T>)
    requires Distinct(s)
    ensures |Elements(s)| == |s|
    decreases |s|
  {
    if s != [] {
      var rest := s[1..];
      assert Distinct(rest) by {
        forall x, y | 0 <= x < y < |rest| ensures rest[x] != rest[y] {
          assert rest[x] == s[x + 1] && rest[y] == s[y + 1];
        }
      }
      DistinctElementsCard(rest);
      assert Elements(s) == {s[0]} + Elements(rest) by {
        assert s == [s[0]] + rest;
      }
      assert s[0] !in Elements(rest) by {
        forall k | 0 <= k < |rest| ensures rest[k] != s[0] {
          assert rest[k] == s[k + 1];
        }
      }
    }
  }

  /** `s` with the element at position `k` taken out. */
  function Remove(s: seq<nat>, k: int): (r: seq<nat>)
    requires 0 <= k < |s|
    ensures |r| == |s| - 1
  {
    s[..k] + s[k + 1..]
  }

  function PrependAll(x: nat, ps: seq<seq<nat>>): (r: seq<seq<nat>>)
    ensures |r| == |ps|
  {
    seq(|ps|, i requires 0 <= i < |ps| => [x] + ps[i])
  }

  /** All orderings of `s`, in the order of itertools.permutations. */
  function Permutations(s: seq<nat>): seq<seq<nat>>
    decreases |s|, 1, 0
  {
    if |s| == 0 then [[]] else PermutationsFrom(s, 0)
  }

  /** The orderings of `s` whose first element is taken from position `k` or later. */
  function PermutationsFrom(s: seq<nat>, k: int): seq<seq<nat>>
    requires 0 <= k <= |s|
    decreases |s|, 0, |s| - k
  {
    if k == |s| then []
    else PrependAll(s[k], Permutations(Remove(s, k))) + PermutationsFrom(s, k + 1)
  }

  /** `p` lists exactly the elements of `s`, each once. */
  predicate IsPermutationOf(p: seq<nat>, s: seq<nat>) {
    |p| == |s| && Distinct(p) && Elements(p) == Elements(s)
  }

  lemma {:induction false} RemoveFacts(s: seq<nat>, k: int)
    requires Distinct(s) && 0 <= k < |s|
    ensures Distinct(Remove(s, k))
    ensures Elements(Remove(s, k)) == Elements(s) - {s[k]}
  {
    var r := Remove(s, k);
    forall x | 0 <= x < |r| ensures r[x] == if x < k then s[x] else s[x + 1] {
    }
    forall y ensures y in r <==> y in s && y != s[k] {
      if y in s && y != s[k] {
        var m :| 0 <= m < |s| && s[m] == y;
        if m < k { assert r[m] == y; } else { assert m > k; assert r[m - 1] == y; }
      }
    }
  }

  lemma {:induction false} PermutationsNonEmpty(s: seq<nat>)
    ensures |Permutations(s)| >= 1
    decreases |s|
  {
    if |s| > 0 {
      PermutationsNonEmpty(Remove(s, 0));
      assert PermutationsFrom(s, 0) == PrependAll(s[0], Permutations(Remove(s, 0))) + PermutationsFrom(s, 1);
    }
  }

  lemma {:induction false} PermutationsSound(s: seq<nat>, p: seq<nat>)
    requires Distinct(s) && p in Permutations(s)
    ensures IsPermutationOf(p, s)
    decreases |s|, 1, 0
  {
    if |s| == 0 {
      assert p == [];
    } else {
      PermutationsFromSound(s, 0, p);
    }
  }

  lemma {:induction false} PermutationsFromSound(s: seq<nat>, k: int, p: seq<nat>)
    requires Distinct(s) && 0 <= k <= |s| && p in PermutationsFrom(s, k)
    ensures IsPermutationOf(p, s)
    decreases |s|, 0, |s| - k
  {
    if k < |s| {
      var head := PrependAll(s[k], Permutations(Remove(s, k)));
      if p in head {
        var i :| 0 <= i < |head| && head[i] == p;
        var q := Permutations(Remove(s, k))[i];
        assert p == [s[k]] + q;
        RemoveFacts(s, k);
        PermutationsSound(Remove(s, k), q);
        assert Elements(p) == {s[k]} + Elements(q);
        assert Distinct(p) by {
          forall x, y | 0 <= x < y < |p| ensures p[x] != p[y] {
            if x == 0 {
              assert p[y] == q[y - 1];
              assert q[y - 1] in Elements(q);
            } else {
              assert p[x] == q[x - 1] && p[y] == q[y - 1];
            }
          }
        }
      } else {
        PermutationsFromSound(s, k + 1, p);
      }
    }
  }

  lemma {:induction false} PermutationsFromContains(s: seq<nat>, k0: int, k: int, q: seq<nat>)
    requires 0 <= k0 <= k < |s| && q in Permutations(Remove(s, k))
    ensures [s[k]] + q in PermutationsFrom(s, k0)
    decreases k - k0
  {
    var head := PrependAll(s[k0], Permutations(Remove(s, k0)));
    if k0 == k {
      var i :| 0 <= i < |Permutations(Remove(s, k))| && Permutations(Remove(s, k))[i] == q;
      assert head[i] == [s[k]] + q;
    } else {
      PermutationsFromContains(s, k0 + 1, k, q);
    }
  }

  /** Every ordering of the elements of `s` is enumerated. */
  lemma {:induction false} PermutationsComplete(s: seq<nat>, p: seq<nat>)
    requires Distinct(s) && IsPermutationOf(p, s)
    ensures p in Permutations(s)
    decreases |s|
  {
    if |s| == 0 {
      assert p == [];
    } else {
      assert p[0] in Elements(s);
      var k :| 0 <= k < |s| && s[k] == p[0];
      var r := Remove(s, k);
      var q := p[1..];
      RemoveFacts(s, k);
      assert p == [p[0]] + q;
      assert Distinct(q) by {
        forall x, y | 0 <= x < y < |q| ensures q[x] != q[y] {
          assert q[x] == p[x + 1] && q[y] == p[y + 1];
        }
      }
      assert Elements(q) == Elements(p) - {p[0]} by {
        forall y ensures y in q <==> y in p && y != p[0] {
          if y in p && y != p[0] {
            var m :| 0 <= m < |p| && p[m] == y;
            assert m != 0 && q[m - 1] == y;
          }
          if y in q {
            var m :| 0 <= m < |q| && q[m] == y;
            assert p[m + 1] == y;
            assert m + 1 != 0;
          }
        }
      }
      PermutationsComplete(r, q);
      PermutationsFromContains(s, 0, k, q);
    }
  }
}
