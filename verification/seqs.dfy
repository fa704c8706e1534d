/** Order-preserving operations on sequences: the model of `Array.prototype.filter`, `find`
    and `findIndex`, plus the counting and summing facts the statistics rely on. */
module Seqs {
  import opened Wrappers

  /** `r` is `xs` with some elements deleted: what is left keeps its original order. */
  predicate IsSubsequence<T(==)>(r: seq<T>, xs: seq<T>)
    decreases |xs|
  {
    r == [] || (xs != [] && ((r[0] == xs[0] && IsSubsequence(r[1..], xs[1..])) || IsSubsequence(r, xs[1..])))
  }

  /** Every copy in `xs` of an element satisfying `p`, and nothing else. */
  ghost predicate KeepsCopies<T(!new)>(r: seq<T>, xs: seq<T>, p: T -> bool) {
    forall x :: multiset(r)[x] == if p(x) then multiset(xs)[x] else 0
  }

  /** `xs.filter(p)`: the elements satisfying `p`, in their original order, each copy kept. */
  function Filter<T(!new)>(xs: seq<T>, p: T -> bool): (r: seq<T>)
    ensures |r| <= |xs|
    ensures forall x :: x in r <==> x in xs && p(x)
    ensures IsSubsequence(r, xs)
    ensures KeepsCopies(r, xs, p)
  {
    if xs == [] then []
    else
      var rest := Filter(xs[1..], p);
      assert xs == [xs[0]] + xs[1..];
      assert multiset(xs) == multiset([xs[0]]) + multiset(xs[1..]);
      if p(xs[0]) then
        var r := [xs[0]] + rest;
        assert r[0] == xs[0] && r[1..] == rest;
        assert multiset(r) == multiset([xs[0]]) + multiset(rest);
        r
      else
        rest
  }

  /** A subsequence has no more copies of anything than the sequence it is taken from. */
  lemma {:induction false} SubsequenceMultiset<T>(r: seq<T>, xs: seq<T>)
    requires IsSubsequence(r, xs)
    ensures multiset(r) <= multiset(xs)
    decreases |xs|
  {
    if r != [] {
      assert xs == [xs[0]] + xs[1..];
      if r[0] == xs[0] && IsSubsequence(r[1..], xs[1..]) {
        SubsequenceMultiset(r[1..], xs[1..]);
        assert r == [r[0]] + r[1..];
      } else {
        SubsequenceMultiset(r, xs[1..]);
      }
    }
  }

  /** The contract of `Filter` pins its result: the only in-order selection from `xs` that keeps
      every copy of the elements satisfying `p`, and nothing else, is `Filter(xs, p)`. */
  lemma {:induction false} FilterUnique<T(!new)>(r: seq<T>, xs: seq<T>, p: T -> bool)
    requires IsSubsequence(r, xs)
    requires KeepsCopies(r, xs, p)
    ensures r == Filter(xs, p)
    decreases |xs|
  {
    if xs == [] {
    } else {
      var x0, tail := xs[0], xs[1..];
      assert xs == [x0] + tail;
      assert multiset(xs) == multiset([x0]) + multiset(tail);
      if p(x0) {
        assert multiset(r)[x0] == multiset(xs)[x0] == multiset(tail)[x0] + 1;
        if r != [] && r[0] == x0 && IsSubsequence(r[1..], tail) {
          assert r == [x0] + r[1..];
          assert multiset(r) == multiset([x0]) + multiset(r[1..]);
          FilterUnique(r[1..], tail, p);
        } else {
          SubsequenceMultiset(r, tail);
          assert false;
        }
      } else {
        assert x0 !in r;
        assert IsSubsequence(r, tail);
        FilterUnique(r, tail, p);
      }
    }
  }

  /** Filtering distributes over concatenation, so filtering keeps relative order. */
  lemma {:induction false} FilterAppend<T(!new)>(xs: seq<T>, ys: seq<T>, p: T -> bool)
    ensures Filter(xs + ys, p) == Filter(xs, p) + Filter(ys, p)
  {
    if xs == [] {
      assert xs + ys == ys;
    } else {
      assert (xs + ys)[1..] == xs[1..] + ys;
      FilterAppend(xs[1..], ys, p);
    }
  }

  /** Filtering keeps the list unchanged exactly when every element passes. */
  lemma {:induction false} FilterAll<T(!new)>(xs: seq<T>, p: T -> bool)
    ensures Filter(xs, p) == xs <==> forall x :: x in xs ==> p(x)
  {
    if xs != [] {
      FilterAll(xs[1..], p);
      if !p(xs[0]) {
        assert |Filter(xs, p)| < |xs|;
      }
    }
  }

  /** The positions of `xs` holding an element that satisfies `p`. */
  ghost function Positions<T>(xs: seq<T>, p: T -> bool): set<nat> {
    set i: nat | i < |xs| && p(xs[i])
  }

  /** `xs.filter(p).length` counts the positions whose element satisfies `p`. */
  lemma {:induction false} FilterCountsPositions<T(!new)>(xs: seq<T>, p: T -> bool)
    ensures |Filter(xs, p)| == |Positions(xs, p)|
    decreases |xs|
  {
    if xs != [] {
      var init, x := xs[..|xs| - 1], xs[|xs| - 1];
      assert xs == init + [x];
      FilterSnocLength(init, x, p);
      PositionsSnoc(init, x, p);
      FilterCountsPositions(init, p);
    }
  }

  lemma FilterSnocLength<T(!new)>(init: seq<T>, x: T, p: T -> bool)
    ensures |Filter(init + [x], p)| == |Filter(init, p)| + (if p(x) then 1 else 0)
  {
    FilterAppend(init, [x], p);
    assert [x][1..] == [];
  }

  /** One more element adds its own position when it satisfies `p`. */
  lemma PositionsSnoc<T>(init: seq<T>, x: T, p: T -> bool)
    ensures |Positions(init + [x], p)| == |Positions(init, p)| + (if p(x) then 1 else 0)
  {
    var xs := init + [x];
    var before := Positions(init, p);
    assert |init| !in before;
    assert Positions(xs, p) == before + (if p(x) then {|init|} else {}) by {
      forall i: nat | i < |init|
        ensures xs[i] == init[i]
      {
      }
    }
  }

  /** Nothing passes, so nothing is kept. */
  lemma {:induction false} FilterNone<T(!new)>(xs: seq<T>, p: T -> bool)
    requires forall x :: x in xs ==> !p(x)
    ensures Filter(xs, p) == []
  {
    if xs != [] {
      FilterNone(xs[1..], p);
    }
  }

  /** Filtering twice with the same predicate is the same as filtering once. */
  lemma FilterIdempotent<T(!new)>(xs: seq<T>, p: T -> bool)
    ensures Filter(Filter(xs, p), p) == Filter(xs, p)
  {
    FilterAll(Filter(xs, p), p);
  }

  /** Two predicates that agree on every element of `xs` select the same elements. */
  lemma {:induction false} FilterCongruent<T(!new)>(xs: seq<T>, p: T -> bool, q: T -> bool)
    requires forall x :: x in xs ==> p(x) == q(x)
    ensures Filter(xs, p) == Filter(xs, q)
  {
    if xs != [] {
      FilterCongruent(xs[1..], p, q);
    }
  }

  /** Every element satisfies exactly one of `p` and its negation, so the two filters split the list. */
  lemma {:induction false} FilterComplement<T(!new)>(xs: seq<T>, p: T -> bool, q: T -> bool)
    requires forall x :: x in xs ==> q(x) == !p(x)
    ensures |Filter(xs, p)| + |Filter(xs, q)| == |xs|
  {
    if xs != [] {
      FilterComplement(xs[1..], p, q);
    }
  }

  /** `xs.findIndex(p)`: the position of the first element satisfying `p`, or `None` (-1). */
  function FindIndex<T(!new)>(xs: seq<T>, p: T -> bool): (r: Option<nat>)
    ensures r.Some? ==> (r.value < |xs| && p(xs[r.value])
      && forall j :: 0 <= j < r.value ==> !p(xs[j]))
    ensures r.None? <==> forall x :: x in xs ==> !p(x)
  {
    if xs == [] then None
    else if p(xs[0]) then Some(0)
    else match FindIndex(xs[1..], p)
      case None => None
      case Some(i) => Some(i + 1)
  }

  /** Replacing position `i` of `xs` by `x`, spelled as the source spells it:
      `[...xs.slice(0, i), x, ...xs.slice(i + 1)]`. */
  function SpliceAt<T(!new)>(xs: seq<T>, i: nat, x: T): (r: seq<T>)
    requires i < |xs|
    ensures |r| == |xs| && r[i] == x
    ensures forall j :: 0 <= j < |xs| && j != i ==> r[j] == xs[j]
  {
    xs[..i] + [x] + xs[i + 1..]
  }

  /** The elements of `xs` whose key is `k`, in their original order. */
  function Group<T(!new), K(==)>(xs: seq<T>, key: T -> K, k: K): (g: seq<T>)
    ensures forall x :: x in g <==> x in xs && key(x) == k
  {
    Filter(xs, x => key(x) == k)
  }

  /** Grouping a list with one more element at the end. */
  lemma GroupSnoc<T(!new), K>(xs: seq<T>, x: T, key: T -> K, k: K)
    ensures Group(xs + [x], key, k) == Group(xs, key, k) + (if key(x) == k then [x] else [])
  {
    FilterAppend(xs, [x], y => key(y) == k);
  }

  /** A key no element carries has an empty group. */
  lemma GroupNone<T(!new), K>(xs: seq<T>, key: T -> K, k: K)
    requires forall x :: x in xs ==> key(x) != k
    ensures Group(xs, key, k) == []
  {
    FilterNone(xs, x => key(x) == k);
  }

  /** The map built by visiting `xs` left to right and pushing each element onto the list
      stored under its key, creating the list on first use (the `forEach` + `push` idiom). */
  function GroupBy<T(!new), K(!new)>(xs: seq<T>, key: T -> K): (m: map<K, seq<T>>)
    ensures forall k :: k in m <==> exists x :: x in xs && key(x) == k
    ensures forall k :: k in m ==> m[k] == Group(xs, key, k)
    decreases |xs|
  {
    if xs == [] then map[]
    else
      var init, x := xs[..|xs| - 1], xs[|xs| - 1];
      assert xs == init + [x];
      var m := GroupBy(init, key);
      var k := key(x);
      GroupByStep(init, x, key, m);
      m[k := (if k in m then m[k] else []) + [x]]
  }

  /** The step of `GroupBy`: pushing `x` onto its key's list keeps both of its promises. */
  lemma GroupByStep<T(!new), K(!new)>(init: seq<T>, x: T, key: T -> K, m: map<K, seq<T>>)
    requires forall k :: k in m <==> exists y :: y in init && key(y) == k
    requires forall k :: k in m ==> m[k] == Group(init, key, k)
    ensures var m' := m[key(x) := (if key(x) in m then m[key(x)] else []) + [x]];
      && (forall k :: k in m' <==> exists y :: y in init + [x] && key(y) == k)
      && (forall k :: k in m' ==> m'[k] == Group(init + [x], key, k))
  {
    var m' := m[key(x) := (if key(x) in m then m[key(x)] else []) + [x]];
    forall k
      ensures k in m' <==> exists y :: y in init + [x] && key(y) == k
    {
      if k in m {
        var y :| y in init && key(y) == k;
        assert y in init + [x];
      } else if k == key(x) {
        assert x in init + [x];
      }
    }
    forall k | k in m'
      ensures m'[k] == Group(init + [x], key, k)
    {
      GroupByStepAt(init, x, key, m, k);
    }
  }

  /** The step of `GroupBy` for one key `j`: pushing `x` extends only its own key's list. */
  lemma GroupByStepAt<T(!new), K(!new)>(init: seq<T>, x: T, key: T -> K, m: map<K, seq<T>>, j: K)
    requires j in m ==> m[j] == Group(init, key, j)
    requires j !in m ==> forall y :: y in init ==> key(y) != j
    ensures var m' := m[key(x) := (if key(x) in m then m[key(x)] else []) + [x]];
      j in m' ==> m'[j] == Group(init + [x], key, j)
  {
    GroupSnoc(init, x, key, j);
    if j !in m {
      GroupNone(init, key, j);
    }
  }

  /** The sum of the weights `w(x)` over `xs`. */
  function Sum<T>(xs: seq<T>, w: T -> int): int
    decreases |xs|
  {
    if xs == [] then 0 else w(xs[0]) + Sum(xs[1..], w)
  }

  /** The unit weight: summing it counts. */
  function One<T>(x: T): int {
    1
  }

  lemma {:induction false} SumOfOnes<T>(xs: seq<T>)
    ensures Sum(xs, One) == |xs|
    decreases |xs|
  {
    if xs != [] {
      SumOfOnes(xs[1..]);
    }
  }

  /** Summing a concatenation sums the halves. */
  lemma {:induction false} SumAppend<T>(xs: seq<T>, ys: seq<T>, w: T -> int)
    ensures Sum(xs + ys, w) == Sum(xs, w) + Sum(ys, w)
    decreases |xs|
  {
    if xs == [] {
      assert xs + ys == ys;
    } else {
      assert (xs + ys)[1..] == xs[1..] + ys;
      SumAppend(xs[1..], ys, w);
    }
  }

  predicate Distinct<K(==)>(ks: seq<K>) {
    forall i, j :: 0 <= i < j < |ks| ==> ks[i] != ks[j]
  }

  /** The group sums, one per key of `ks`, added up. */
  function SumOfGroups<T(!new), K(==)>(xs: seq<T>, key: T -> K, w: T -> int, ks: seq<K>): int
    decreases |ks|
  {
    if ks == [] then 0 else Sum(Group(xs, key, ks[0]), w) + SumOfGroups(xs, key, w, ks[1..])
  }

  lemma {:induction false} SumOfGroupsEmpty<T(!new), K>(key: T -> K, w: T -> int, ks: seq<K>)
    ensures SumOfGroups([], key, w, ks) == 0
    decreases |ks|
  {
    if ks != [] {
      SumOfGroupsEmpty(key, w, ks[1..]);
    }
  }

  /** Taking the first element off: it contributes its weight to its own group only. */
  lemma {:induction false} SumOfGroupsCons<T(!new), K>(x: T, xs: seq<T>, key: T -> K, w: T -> int, ks: seq<K>)
    requires Distinct(ks)
    ensures SumOfGroups([x] + xs, key, w, ks)
      == (if key(x) in ks then w(x) else 0) + SumOfGroups(xs, key, w, ks)
    decreases |ks|
  {
    if ks != [] {
      var ys := [x] + xs;
      assert ys[0] == x && ys[1..] == xs;
      assert Group(ys, key, ks[0]) == (if key(x) == ks[0] then [x] else []) + Group(xs, key, ks[0]);
      SumAppend(if key(x) == ks[0] then [x] else [], Group(xs, key, ks[0]), w);
      assert Distinct(ks[1..]) by {
        forall i, j | 0 <= i < j < |ks[1..]|
          ensures ks[1..][i] != ks[1..][j]
        {
          assert ks[1..][i] == ks[i + 1] && ks[1..][j] == ks[j + 1];
        }
      }
      assert key(x) == ks[0] ==> key(x) !in ks[1..];
      SumOfGroupsCons(x, xs, key, w, ks[1..]);
    }
  }

  /** Grouping by a key loses and duplicates nothing: over distinct keys that cover every
      element, the group sums add up to the sum over the whole list. */
  lemma {:induction false} GroupsSumToWhole<T(!new), K>(xs: seq<T>, key: T -> K, w: T -> int, ks: seq<K>)
    requires Distinct(ks)
    requires forall x :: x in xs ==> key(x) in ks
    ensures SumOfGroups(xs, key, w, ks) == Sum(xs, w)
    decreases |xs|
  {
    if xs == [] {
      SumOfGroupsEmpty(key, w, ks);
    } else {
      assert xs == [xs[0]] + xs[1..];
      SumOfGroupsCons(xs[0], xs[1..], key, w, ks);
      GroupsSumToWhole(xs[1..], key, w, ks);
    }
  }
}
