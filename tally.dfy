/** Per-option vote counts: a map from option index to count, as the
    `{ [optionIndex]: count }` objects of the poll views, and the sum of
    such a map taken over any enumeration of its keys. */
module Tally {

  /** One more vote for option `k`: a missing entry counts as 0. */
  function Bump(m: map<int, nat>, k: int): map<int, nat> {
    m[k := Count(m, k) + 1]
  }

  /** The count of option `k` (`m[k] || 0`). */
  function Count(m: map<int, nat>, k: int): nat {
    if k in m then m[k] else 0
  }

  /** The sum of the counts of the options listed in `ks`. */
  function SumAt(m: map<int, nat>, ks: seq<int>): nat {
    if ks == [] then 0 else Count(m, ks[0]) + SumAt(m, ks[1..])
  }

  /** Nothing counted sums to nothing. */
  lemma {:induction false} SumAtEmpty(ks: seq<int>)
    ensures SumAt(map[], ks) == 0
  {
    if ks != [] {
      SumAtEmpty(ks[1..]);
    }
  }

  predicate Distinct(ks: seq<int>) {
    forall i, j :: 0 <= i < j < |ks| ==> ks[i] != ks[j]
  }

  /** `ks` lists every key of `m` exactly once. */
  predicate Enumerates(ks: seq<int>, m: map<int, nat>) {
    Distinct(ks) && (forall k :: k in m ==> k in ks) && (forall i :: 0 <= i < |ks| ==> ks[i] in m)
  }

  /** Appending one key adds its count. */
  lemma {:induction false} SumAtSnoc(m: map<int, nat>, ks: seq<int>, k: int)
    ensures SumAt(m, ks + [k]) == SumAt(m, ks) + Count(m, k)
  {
    if ks != [] {
      assert (ks + [k])[1..] == ks[1..] + [k];
      SumAtSnoc(m, ks[1..], k);
    }
  }

  /** Bumping an option not listed leaves the sum unchanged. */
  lemma {:induction false} SumAtBumpOutside(m: map<int, nat>, ks: seq<int>, k: int)
    requires k !in ks
    ensures SumAt(Bump(m, k), ks) == SumAt(m, ks)
  {
    if ks != [] {
      SumAtBumpOutside(m, ks[1..], k);
    }
  }

  /** Bumping an option listed once raises the sum by one. */
  lemma {:induction false} SumAtBumpInside(m: map<int, nat>, ks: seq<int>, k: int)
    requires Distinct(ks) && k in ks
    ensures SumAt(Bump(m, k), ks) == SumAt(m, ks) + 1
  {
    if ks[0] == k {
      assert k !in ks[1..];
      SumAtBumpOutside(m, ks[1..], k);
    } else {
      SumAtBumpInside(m, ks[1..], k);
    }
  }

  /** The sum can be taken by removing the key at any position first. */
  lemma {:induction false} SumAtRemoveAt(m: map<int, nat>, ks: seq<int>, i: nat)
    requires i < |ks|
    ensures SumAt(m, ks) == Count(m, ks[i]) + SumAt(m, ks[..i] + ks[i + 1..])
  {
    if i == 0 {
      assert ks[..0] + ks[1..] == ks[1..];
    } else {
      var t := ks[1..];
      SumAtRemoveAt(m, t, i - 1);
      assert ks[..i] + ks[i + 1..] == [ks[0]] + (t[..i - 1] + t[i..]);
    }
  }

  /** A non-empty listing contains its first key. */
  lemma HeadIn(ks: seq<int>)
    ensures ks != [] ==> ks[0] in ks
  {
  }

  /** Removing the key at position `i` from a duplicate-free listing removes exactly that key. */
  lemma RemoveAt(ks: seq<int>, i: nat)
    requires Distinct(ks) && i < |ks|
    ensures var r := ks[..i] + ks[i + 1..];
      Distinct(r) && forall k :: k in r <==> k in ks && k != ks[i]
  {
    var r := ks[..i] + ks[i + 1..];
    forall k ensures k in r <==> k in ks && k != ks[i] {
      if k in r {
        var j :| 0 <= j < |r| && r[j] == k;
        if j < i { assert ks[j] == k; } else { assert ks[j + 1] == k; }
      }
      if k in ks && k != ks[i] {
        var j :| 0 <= j < |ks| && ks[j] == k;
        if j < i { assert r[j] == k; } else { assert r[j - 1] == k; }
      }
    }
    forall p, q | 0 <= p < q < |r| ensures r[p] != r[q] {
      var p' := if p < i then p else p + 1;
      var q' := if q < i then q else q + 1;
      assert r[p] == ks[p'] && r[q] == ks[q'];
    }
  }

  /** Any two duplicate-free listings of the same keys give the same sum. */
  lemma {:induction false} SumAtPermutation(m: map<int, nat>, a: seq<int>, b: seq<int>)
    requires Distinct(a) && Distinct(b)
    requires forall k :: k in a <==> k in b
    ensures SumAt(m, a) == SumAt(m, b)
    decreases |a|
  {
    HeadIn(a);
    HeadIn(b);
    if a != [] {
      var x := a[0];
      assert x in b;
      var i :| 0 <= i < |b| && b[i] == x;
      var b' := b[..i] + b[i + 1..];
      SumAtRemoveAt(m, b, i);
      RemoveAt(b, i);
      RemoveAt(a, 0);
      assert a[..0] + a[1..] == a[1..];
      SumAtPermutation(m, a[1..], b');
    }
  }

  /** The count map of a list of option indices: `counts[k] = (counts[k] || 0) + 1` for each
      index in turn, starting from `{}`. It has no more keys than there are votes. */
  function Counts(xs: seq<int>): (r: map<int, nat>)
    ensures |r| <= |xs|
  {
    if xs == [] then map[] else
      var init := xs[..|xs| - 1];
      assert xs == init + [xs[|xs| - 1]];
      Bump(Counts(init), xs[|xs| - 1])
  }

  /** Every option in the count map holds a count of at least one: no zero entries. */
  lemma {:induction false} CountsPositive(xs: seq<int>)
    ensures forall k :: k in Counts(xs) ==> Counts(xs)[k] >= 1
  {
    if xs != [] {
      CountsPositive(xs[..|xs| - 1]);
    }
  }

  /** The number of occurrences of `k` in `xs`. */
  function Occurrences(xs: seq<int>, k: int): nat {
    if xs == [] then 0 else Occurrences(xs[..|xs| - 1], k) + (if xs[|xs| - 1] == k then 1 else 0)
  }

  /** The distinct indices of `xs`, in order of first occurrence. */
  function Indices(xs: seq<int>): (ks: seq<int>)
    ensures Distinct(ks)
    ensures forall k :: k in ks <==> k in xs
  {
    if xs == [] then [] else
      var init := xs[..|xs| - 1];
      var x := xs[|xs| - 1];
      assert xs == init + [x];
      var ks := Indices(init);
      if x in ks then ks else ks + [x]
  }

  /** The count of `k` is the number of times `k` occurs. */
  lemma {:induction false} CountsAt(xs: seq<int>, k: int)
    ensures Count(Counts(xs), k) == Occurrences(xs, k)
  {
    if xs != [] {
      CountsAt(xs[..|xs| - 1], k);
    }
  }

  /** Every option's count is the number of times it occurs. */
  lemma CountsAll(xs: seq<int>)
    ensures forall k :: Count(Counts(xs), k) == Occurrences(xs, k)
  {
    forall k ensures Count(Counts(xs), k) == Occurrences(xs, k) {
      CountsAt(xs, k);
    }
  }

  /** The keys of the count map are exactly the indices that occur. */
  lemma {:induction false} CountsKeys(xs: seq<int>)
    ensures forall k :: k in Counts(xs) <==> k in xs
  {
    if xs != [] {
      var init := xs[..|xs| - 1];
      CountsKeys(init);
      assert xs == init + [xs[|xs| - 1]];
    }
  }

  /** The distinct indices are an enumeration of the count map. */
  lemma IndicesEnumerate(xs: seq<int>)
    ensures Enumerates(Indices(xs), Counts(xs))
  {
    CountsKeys(xs);
  }

  /** Summed over the distinct indices, the counts add up to the number of entries. */
  lemma {:induction false} SumOfCounts(xs: seq<int>)
    ensures SumAt(Counts(xs), Indices(xs)) == |xs|
  {
    if xs != [] {
      var init := xs[..|xs| - 1];
      var x := xs[|xs| - 1];
      var m := Counts(init);
      var ks := Indices(init);
      SumOfCounts(init);
      CountsKeys(init);
      if x in ks {
        SumAtBumpInside(m, ks, x);
      } else {
        SumAtSnoc(Bump(m, x), ks, x);
        SumAtBumpOutside(m, ks, x);
        assert x !in m;
      }
    }
  }

  /** Summed over any enumeration of its keys, the count map adds up to the number of entries. */
  lemma SumOfCountsAnyOrder(xs: seq<int>, ks: seq<int>)
    requires Enumerates(ks, Counts(xs))
    ensures SumAt(Counts(xs), ks) == |xs|
  {
    SumOfCounts(xs);
    CountsKeys(xs);
    SumAtPermutation(Counts(xs), ks, Indices(xs));
  }

  /** Counting one more index bumps its count. */
  lemma CountsSnoc(xs: seq<int>, x: int)
    ensures Counts(xs + [x]) == Bump(Counts(xs), x)
  {
    assert (xs + [x])[..|xs|] == xs;
  }
}
