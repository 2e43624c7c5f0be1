/** Sequence operations behind `Array.prototype.filter`, `Array.prototype.map`
    used to replace elements, `Array.prototype.sort` with a numeric comparator,
    and the `[x, ...prev]` state update. */
module Lists {
  import opened Wrappers

  /** `s.filter(p)`: the elements satisfying `p`, in their original order. */
  function Filter<T(==)>(s: seq<T>, p: T -> bool): (r: seq<T>)
    ensures |r| <= |s|
    ensures forall i :: 0 <= i < |r| ==> p(r[i]) && r[i] in s
    ensures forall i :: 0 <= i < |s| && p(s[i]) ==> s[i] in r
  {
    if s == [] then [] else (if p(s[0]) then [s[0]] else []) + Filter(s[1..], p)
  }

  /** `r` is `s` with some elements left out and the rest in their original order. */
  predicate IsSubsequence<T(==)>(r: seq<T>, s: seq<T>)
    decreases |s|
  {
    r == [] || (s != [] && ((r[0] == s[0] && IsSubsequence(r[1..], s[1..])) || IsSubsequence(r, s[1..])))
  }

  /** Filtering keeps the order of what it keeps. */
  lemma {:induction false} FilterIsSubsequence<T>(s: seq<T>, p: T -> bool)
    ensures IsSubsequence(Filter(s, p), s)
  {
    if s != [] {
      FilterIsSubsequence(s[1..], p);
      var r := Filter(s, p);
      if p(s[0]) {
        assert r[0] == s[0] && r[1..] == Filter(s[1..], p);
      } else {
        assert r == Filter(s[1..], p);
      }
    }
  }

  /** Filtering distributes over concatenation. */
  lemma {:induction false} FilterConcat<T>(a: seq<T>, b: seq<T>, p: T -> bool)
    ensures Filter(a + b, p) == Filter(a, p) + Filter(b, p)
  {
    if a != [] {
      assert (a + b)[1..] == a[1..] + b;
      FilterConcat(a[1..], b, p);
    } else {
      assert a + b == b;
    }
  }

  /** The elements satisfying `p` and those satisfying its negation `q` together
      are all of `s`, counted with multiplicity. */
  lemma {:induction false} FilterPartition<T>(s: seq<T>, p: T -> bool, q: T -> bool)
    requires forall x :: q(x) == !p(x)
    ensures |Filter(s, p)| + |Filter(s, q)| == |s|
    ensures multiset(Filter(s, p)) + multiset(Filter(s, q)) == multiset(s)
  {
    if s != [] {
      FilterPartition(s[1..], p, q);
      assert s == [s[0]] + s[1..];
    }
  }

  /** A filter whose predicate holds of every element keeps the whole sequence. */
  lemma {:induction false} FilterAll<T>(s: seq<T>, p: T -> bool)
    requires forall i :: 0 <= i < |s| ==> p(s[i])
    ensures Filter(s, p) == s
  {
    if s != [] {
      FilterAll(s[1..], p);
    }
  }

  /** Filters by predicates that agree on every element give the same result. */
  lemma {:induction false} FilterAgree<T>(s: seq<T>, p: T -> bool, q: T -> bool)
    requires forall i :: 0 <= i < |s| ==> p(s[i]) == q(s[i])
    ensures Filter(s, p) == Filter(s, q)
  {
    if s != [] {
      assert forall i :: 0 <= i < |s[1..]| ==> s[1..][i] == s[i + 1];
      FilterAgree(s[1..], p, q);
    }
  }

  /** A filter keeps the whole length only when every element satisfies the predicate. */
  lemma {:induction false} FilterFullLength<T>(s: seq<T>, p: T -> bool)
    requires |Filter(s, p)| == |s|
    ensures forall i :: 0 <= i < |s| ==> p(s[i])
  {
    if s != [] {
      FilterFullLength(s[1..], p);
      forall i | 0 <= i < |s| ensures p(s[i]) {
        if i > 0 {
          assert s[i] == s[1..][i - 1];
        }
      }
    }
  }

  /** Non-decreasing by `key`. */
  predicate SortedBy<T>(s: seq<T>, key: T -> int) {
    forall i, j :: 0 <= i < j < |s| ==> key(s[i]) <= key(s[j])
  }

  /** Inserts `x` before the first element whose key is not smaller than its own. */
  function InsertBy<T>(x: T, s: seq<T>, key: T -> int): (r: seq<T>)
    ensures multiset(r) == multiset(s) + multiset{x}
    ensures |r| == |s| + 1
  {
    if s == [] || key(x) <= key(s[0]) then
      [x] + s
    else
      assert [s[0]] + s[1..] == s;
      [s[0]] + InsertBy(x, s[1..], key)
  }

  /** Inserting into a sorted sequence keeps it sorted. */
  lemma {:induction false} InsertBySorted<T>(x: T, s: seq<T>, key: T -> int)
    requires SortedBy(s, key)
    ensures SortedBy(InsertBy(x, s, key), key)
  {
    if s != [] && key(x) > key(s[0]) {
      var t := InsertBy(x, s[1..], key);
      InsertBySorted(x, s[1..], key);
      forall i | 0 <= i < |t| ensures key(s[0]) <= key(t[i]) {
        assert t[i] in multiset(s[1..]) + multiset{x};
        if t[i] != x {
          var j :| 0 <= j < |s[1..]| && s[1..][j] == t[i];
          assert s[j + 1] == t[i];
        }
      }
      ConsSorted(s[0], t, key);
    } else {
      ConsSorted(x, s, key);
    }
  }

  /** An element no greater than every element of a sorted sequence can go in front. */
  lemma ConsSorted<T>(y: T, t: seq<T>, key: T -> int)
    requires SortedBy(t, key) && forall i :: 0 <= i < |t| ==> key(y) <= key(t[i])
    ensures SortedBy([y] + t, key)
  {
    var r := [y] + t;
    forall i, j | 0 <= i < j < |r| ensures key(r[i]) <= key(r[j]) {
      assert r[j] == t[j - 1];
      if i > 0 {
        assert r[i] == t[i - 1];
      }
    }
  }

  /** `s.sort((a, b) => key(a) - key(b))`: a sort by ascending key. The result
      is ordered by key and holds exactly the elements of `s`. */
  function SortBy<T>(s: seq<T>, key: T -> int): (r: seq<T>)
    ensures SortedBy(r, key)
    ensures multiset(r) == multiset(s)
    ensures |r| == |s|
  {
    if s == [] then [] else
      assert s == [s[0]] + s[1..];
      InsertBySorted(s[0], SortBy(s[1..], key), key);
      InsertBy(s[0], SortBy(s[1..], key), key)
  }

  /** Sequences with the same multiset have the same members. */
  lemma SameMembers<T>(a: seq<T>, b: seq<T>)
    requires multiset(a) == multiset(b)
    ensures forall x :: x in a <==> x in b
  {
    forall x ensures x in a <==> x in b {
      assert x in a <==> x in multiset(a);
      assert x in b <==> x in multiset(b);
    }
  }

  /** `s.map(e => p(e) ? x : e)`: every element satisfying `p` is replaced by `x`. */
  function Replace<T>(s: seq<T>, p: T -> bool, x: T): (r: seq<T>)
    ensures |r| == |s|
    ensures forall i :: 0 <= i < |s| && p(s[i]) ==> r[i] == x
    ensures forall i :: 0 <= i < |s| && !p(s[i]) ==> r[i] == s[i]
  {
    seq(|s|, i requires 0 <= i < |s| => if p(s[i]) then x else s[i])
  }

  /** Replacing the elements that satisfy `p` when only the first one does swaps
      that one for `x` and leaves the rest as it was. */
  lemma ReplaceFresh<T>(s: seq<T>, y: T, p: T -> bool, x: T)
    requires p(y) && forall i :: 0 <= i < |s| ==> !p(s[i])
    ensures Replace([y] + s, p, x) == [x] + s
  {
    var r := Replace([y] + s, p, x);
    forall i | 0 <= i < |r| ensures r[i] == ([x] + s)[i] {
      if i > 0 {
        assert ([y] + s)[i] == s[i - 1];
      }
    }
  }

  /** The optimistic-insert pattern of the client panels: `y` is shown first, and
      when the server's element `reply` comes back it takes the place of every
      element satisfying `p` (the temporary id). */
  function ShowThenReplace<T>(s: seq<T>, y: T, p: T -> bool, reply: Option<T>): (r: seq<T>)
    ensures |r| == |s| + 1
    ensures reply.None? ==> r == [y] + s
    ensures (reply.Some? && p(y) && forall i :: 0 <= i < |s| ==> !p(s[i])) ==> r == [reply.value] + s
  {
    if reply.None? then [y] + s
    else
      var r := Replace([y] + s, p, reply.value);
      assert (p(y) && forall i :: 0 <= i < |s| ==> !p(s[i])) ==> r == [reply.value] + s by {
        if p(y) && forall i :: 0 <= i < |s| ==> !p(s[i]) {
          ReplaceFresh(s, y, p, reply.value);
        }
      }
      r
  }

  /** `setItems(prev => [x, ...prev])` for each `x` of `news` in turn: the last of
      `news` ends up first and `xs` follows unchanged. */
  function PrependEach<T>(xs: seq<T>, news: seq<T>): (r: seq<T>)
    ensures |r| == |xs| + |news|
    ensures r[|news|..] == xs
  {
    if news == [] then xs
    else [news[|news| - 1]] + PrependEach(xs, news[..|news| - 1])
  }

  /** The `i`-th new element sits at position `|news| - 1 - i`. */
  lemma {:induction false} PrependEachAt<T>(xs: seq<T>, news: seq<T>, i: nat)
    requires i < |news|
    ensures PrependEach(xs, news)[|news| - 1 - i] == news[i]
  {
    var n := |news| - 1;
    if i < n {
      PrependEachAt(xs, news[..n], i);
      assert news[..n][i] == news[i];
    }
  }

  /** One more element puts just that element in front. */
  lemma PrependEachSnoc<T>(xs: seq<T>, news: seq<T>, x: T)
    ensures PrependEach(xs, news + [x]) == [x] + PrependEach(xs, news)
  {
    assert (news + [x])[..|news|] == news;
  }
}
