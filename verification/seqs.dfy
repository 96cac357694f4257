/**
 * Sequence helpers shared by the storefront model: the order-preserving
 * `filter` of JavaScript arrays, de-duplication through a `Set`, and the
 * stable `Array.prototype.sort` for a comparator that is a total preorder.
 */
module Seqs {

  /** `sub` keeps some of the elements of `s`, in their original order. */
  ghost predicate IsSubsequence<T>(sub: seq<T>, s: seq<T>)
    decreases |s|
  {
    if |s| == 0 then sub == []
    else
      (|sub| > 0 && sub[0] == s[0] && IsSubsequence(sub[1..], s[1..]))
      || IsSubsequence(sub, s[1..])
  }

  /** `Array.prototype.filter`: the elements satisfying `p`, in order. */
  function Filter<T(!new)>(s: seq<T>, p: T -> bool): (r: seq<T>)
    ensures forall x :: x in r <==> x in s && p(x)
    ensures forall i :: 0 <= i < |r| ==> p(r[i])
    ensures multiset(r) <= multiset(s)
    ensures IsSubsequence(r, s)
    ensures |r| <= |s|
  {
    KeptFacts(s, p);
    Kept(s, p)
  }

  /** The recursion behind `Filter`, kept free of postconditions so that unfolding it stays cheap. */
  function Kept<T>(s: seq<T>, p: T -> bool): seq<T>
  {
    if |s| == 0 then [] else (if p(s[0]) then [s[0]] else []) + Kept(s[1..], p)
  }

  lemma {:induction false} KeptFacts<T>(s: seq<T>, p: T -> bool)
    ensures forall x :: x in Kept(s, p) <==> x in s && p(x)
    ensures forall i :: 0 <= i < |Kept(s, p)| ==> p(Kept(s, p)[i])
    ensures multiset(Kept(s, p)) <= multiset(s)
    ensures IsSubsequence(Kept(s, p), s)
    ensures |Kept(s, p)| <= |s|
  {
    if |s| > 0 {
      KeptFacts(s[1..], p);
      assert s == [s[0]] + s[1..];
      if p(s[0]) {
        assert Kept(s, p) == [s[0]] + Kept(s[1..], p);
        assert Kept(s, p)[1..] == Kept(s[1..], p);
      } else {
        assert Kept(s, p) == Kept(s[1..], p);
      }
    }
  }

  /** Filtering distributes over concatenation. */
  lemma FilterAppend<T(!new)>(a: seq<T>, b: seq<T>, p: T -> bool)
    ensures Filter(a + b, p) == Filter(a, p) + Filter(b, p)
  {
    KeptAppend(a, b, p);
  }

  lemma {:induction false} KeptAppend<T>(a: seq<T>, b: seq<T>, p: T -> bool)
    ensures Kept(a + b, p) == Kept(a, p) + Kept(b, p)
  {
    if |a| == 0 {
      assert a + b == b;
    } else {
      KeptAppend(a[1..], b, p);
      assert (a + b)[1..] == a[1..] + b;
    }
  }

  /** Filtering by a predicate that every element satisfies changes nothing. */
  lemma {:induction false} FilterAll<T(!new)>(s: seq<T>, p: T -> bool)
    requires forall i :: 0 <= i < |s| ==> p(s[i])
    ensures Filter(s, p) == s
  {
    if |s| > 0 {
      FilterAll(s[1..], p);
    }
  }

  /** Filtering twice by the same predicate is filtering once. */
  lemma FilterIdempotent<T(!new)>(s: seq<T>, p: T -> bool)
    ensures Filter(Filter(s, p), p) == Filter(s, p)
  {
    FilterAll(Filter(s, p), p);
  }

  /** Consecutive filters are one filter by the conjunction. */
  lemma FilterFilter<T(!new)>(s: seq<T>, p: T -> bool, q: T -> bool)
    ensures Filter(Filter(s, p), q) == Filter(s, x => p(x) && q(x))
  {
    KeptKept(s, p, q, x => p(x) && q(x));
  }

  lemma {:induction false} KeptKept<T>(s: seq<T>, p: T -> bool, q: T -> bool, both: T -> bool)
    requires forall x :: both(x) == (p(x) && q(x))
    ensures Kept(Kept(s, p), q) == Kept(s, both)
  {
    if |s| > 0 {
      KeptKept(s[1..], p, q, both);
      var rest := Kept(s[1..], p);
      if p(s[0]) {
        var kept := [s[0]] + rest;
        assert Kept(s, p) == kept;
        assert kept[0] == s[0] && kept[1..] == rest;
      } else {
        assert Kept(s, p) == rest;
      }
    }
  }

  /** Filtering out only the last element gives back the rest. */
  lemma FilterDropsLast<T(!new)>(s: seq<T>, x: T, keep: T -> bool)
    requires forall i :: 0 <= i < |s| ==> keep(s[i])
    requires !keep(x)
    ensures Filter(s + [x], keep) == s
  {
    FilterSnoc(s, x, keep);
    FilterAll(s, keep);
  }

  /** `filter` distributes over appending one element. */
  lemma FilterSnoc<T(!new)>(s: seq<T>, x: T, keep: T -> bool)
    ensures Filter(s + [x], keep) == Filter(s, keep) + (if keep(x) then [x] else [])
  {
    KeptSnoc(s, x, keep);
  }

  lemma {:induction false} KeptSnoc<T>(s: seq<T>, x: T, keep: T -> bool)
    ensures Kept(s + [x], keep) == Kept(s, keep) + (if keep(x) then [x] else [])
  {
    if |s| > 0 {
      assert (s + [x])[0] == s[0];
      assert (s + [x])[1..] == s[1..] + [x];
      KeptSnoc(s[1..], x, keep);
    } else {
      assert s + [x] == [x];
      assert [x][1..] == [];
    }
  }

  /** Number of elements satisfying `p`. */
  function CountIf<T>(s: seq<T>, p: T -> bool): nat
  {
    if |s| == 0 then 0 else (if p(s[0]) then 1 else 0) + CountIf(s[1..], p)
  }

  /** `arr.filter(p).length` is the number of elements satisfying `p`. */
  lemma {:induction false} FilterLength<T(!new)>(s: seq<T>, p: T -> bool)
    ensures |Filter(s, p)| == CountIf(s, p)
  {
    if |s| > 0 {
      FilterLength(s[1..], p);
    }
  }

  /** No element occurs twice. */
  predicate NoDuplicates<T(==)>(s: seq<T>)
  {
    forall i, j :: 0 <= i < j < |s| ==> s[i] != s[j]
  }

  /** In a sequence without duplicates every value occurs at most once. */
  lemma {:induction false} NoDuplicatesCount<T>(s: seq<T>, x: T)
    requires NoDuplicates(s)
    ensures multiset(s)[x] <= 1
  {
    if |s| > 0 {
      assert s == [s[0]] + s[1..];
      assert NoDuplicates(s[1..]) by {
        forall i, j | 0 <= i < j < |s[1..]| ensures s[1..][i] != s[1..][j] {
          assert s[1..][i] == s[i + 1] && s[1..][j] == s[j + 1];
        }
      }
      NoDuplicatesCount(s[1..], x);
      if s[0] == x {
        assert x !in s[1..] by {
          forall k | 0 <= k < |s[1..]| ensures s[1..][k] != x {
            assert s[1..][k] == s[k + 1];
          }
        }
      }
    }
  }

  /** Rearranging a sequence without duplicates gives one without duplicates. */
  lemma NoDuplicatesPermutation<T>(a: seq<T>, b: seq<T>)
    requires multiset(a) == multiset(b) && NoDuplicates(a)
    ensures NoDuplicates(b)
  {
    forall i, j | 0 <= i < j < |b| ensures b[i] != b[j] {
      if b[i] == b[j] {
        assert b == b[..j] + b[j..];
        assert b[i] in b[..j];
        assert b[j] in b[j..];
        assert multiset(b)[b[i]] == multiset(b[..j])[b[i]] + multiset(b[j..])[b[i]];
        NoDuplicatesCount(a, b[i]);
      }
    }
  }

  /** Every element of a subsequence is an element of the whole. */
  lemma {:induction false} SubsequenceIn<T>(sub: seq<T>, s: seq<T>)
    requires IsSubsequence(sub, s)
    ensures forall x :: x in sub ==> x in s
    decreases |s|
  {
    if |s| > 0 {
      if |sub| > 0 && sub[0] == s[0] && IsSubsequence(sub[1..], s[1..]) {
        SubsequenceIn(sub[1..], s[1..]);
        assert sub == [sub[0]] + sub[1..];
      } else {
        SubsequenceIn(sub, s[1..]);
      }
    }
  }

  lemma {:induction false} SubsequenceReflexive<T>(s: seq<T>)
    ensures IsSubsequence(s, s)
    decreases |s|
  {
    if |s| > 0 {
      SubsequenceReflexive(s[1..]);
    }
  }

  /** A subsequence of a subsequence is a subsequence. */
  lemma {:induction false} SubsequenceTransitive<T>(a: seq<T>, b: seq<T>, c: seq<T>)
    requires IsSubsequence(a, b) && IsSubsequence(b, c)
    ensures IsSubsequence(a, c)
    decreases |c|
  {
    if |c| > 0 {
      if |b| > 0 && b[0] == c[0] && IsSubsequence(b[1..], c[1..]) {
        if |a| > 0 && a[0] == b[0] && IsSubsequence(a[1..], b[1..]) {
          SubsequenceTransitive(a[1..], b[1..], c[1..]);
        } else {
          SubsequenceTransitive(a, b[1..], c[1..]);
        }
      } else {
        SubsequenceTransitive(a, b, c[1..]);
      }
    }
  }

  /** Elements with pairwise distinct keys keep them distinct in any subsequence. */
  lemma {:induction false} SubsequenceKeepsDistinctKeys<T, K>(sub: seq<T>, s: seq<T>, key: T -> K)
    requires IsSubsequence(sub, s)
    requires forall i, j :: 0 <= i < j < |s| ==> key(s[i]) != key(s[j])
    ensures forall i, j :: 0 <= i < j < |sub| ==> key(sub[i]) != key(sub[j])
    decreases |s|
  {
    if |s| > 0 {
      if |sub| > 0 && sub[0] == s[0] && IsSubsequence(sub[1..], s[1..]) {
        SubsequenceKeepsDistinctKeys(sub[1..], s[1..], key);
        SubsequenceIn(sub[1..], s[1..]);
        forall i, j | 0 <= i < j < |sub| ensures key(sub[i]) != key(sub[j]) {
          assert sub[j] == sub[1..][j - 1];
          assert sub[j] in s[1..];
          var k :| 0 <= k < |s[1..]| && s[1..][k] == sub[j];
          if i == 0 {
            assert key(s[0]) != key(s[k + 1]);
          } else {
            assert sub[i] == sub[1..][i - 1];
          }
        }
      } else {
        SubsequenceKeepsDistinctKeys(sub, s[1..], key);
      }
    }
  }

  /**
   * `Array.from(new Set(s))`: the first occurrence of every element, in
   * order of first insertion.
   */
  function Dedup<T(==,!new)>(s: seq<T>): (r: seq<T>)
    ensures forall x :: x in r <==> x in s
    ensures NoDuplicates(r)
  {
    DedupAfter(s, [])
  }

  /** Appends to `seen` the elements of `s` not already present. */
  function DedupAfter<T(==,!new)>(s: seq<T>, seen: seq<T>): (r: seq<T>)
    requires NoDuplicates(seen)
    ensures forall x :: x in r <==> x in s || x in seen
    ensures NoDuplicates(r)
    ensures |seen| <= |r| && r[..|seen|] == seen
  {
    if |s| == 0 then seen
    else if s[0] in seen then DedupAfter(s[1..], seen)
    else DedupAfter(s[1..], seen + [s[0]])
  }

  // ---------------------------------------------------------------------
  // Stable sorting for a comparator that is a total preorder.
  // ---------------------------------------------------------------------

  ghost predicate Connected<T(!new)>(le: (T, T) -> bool)
  {
    forall x, y :: le(x, y) || le(y, x)
  }

  ghost predicate Transitive<T(!new)>(le: (T, T) -> bool)
  {
    forall x, y, z :: le(x, y) && le(y, z) ==> le(x, z)
  }

  ghost predicate TotalPreorder<T(!new)>(le: (T, T) -> bool)
  {
    Connected(le) && Transitive(le)
  }

  ghost predicate SortedBy<T>(s: seq<T>, le: (T, T) -> bool)
  {
    forall i, j :: 0 <= i < j < |s| ==> le(s[i], s[j])
  }

  /**
   * Inserts `x` into `s` after every element that is not strictly greater
   * than it, so equal elements keep their arrival order.
   */
  function Insert<T>(x: T, s: seq<T>, le: (T, T) -> bool): seq<T>
  {
    if |s| == 0 then [x]
    else if !le(s[0], x) then [x] + s
    else [s[0]] + Insert(x, s[1..], le)
  }

  lemma {:induction false} InsertFacts<T(!new)>(x: T, s: seq<T>, le: (T, T) -> bool)
    requires TotalPreorder(le)
    requires SortedBy(s, le)
    ensures SortedBy(Insert(x, s, le), le)
    ensures multiset(Insert(x, s, le)) == multiset(s) + multiset{x}
    ensures |Insert(x, s, le)| == |s| + 1
  {
    if |s| == 0 {
    } else if !le(s[0], x) {
      InsertInFront(x, s, le);
    } else {
      assert SortedBy(s[1..], le) by {
        forall i, j | 0 <= i < j < |s[1..]| ensures le(s[1..][i], s[1..][j]) {
          assert s[1..][i] == s[i + 1] && s[1..][j] == s[j + 1];
        }
      }
      InsertFacts(x, s[1..], le);
      InsertBehindHead(x, s, Insert(x, s[1..], le), le);
    }
  }

  lemma InsertInFront<T(!new)>(x: T, s: seq<T>, le: (T, T) -> bool)
    requires TotalPreorder(le) && SortedBy(s, le)
    requires |s| > 0 && !le(s[0], x)
    ensures SortedBy([x] + s, le)
  {
    assert forall j :: 0 <= j < |s| ==> le(x, s[j]) by {
      forall j | 0 <= j < |s| ensures le(x, s[j]) {
        assert le(x, s[0]);
        assert le(s[0], s[j]) || j == 0;
      }
    }
    var r := [x] + s;
    assert forall j :: 0 < j < |r| ==> r[j] == s[j - 1];
  }

  lemma InsertBehindHead<T(!new)>(x: T, s: seq<T>, rest: seq<T>, le: (T, T) -> bool)
    requires TotalPreorder(le) && SortedBy(s, le)
    requires |s| > 0 && le(s[0], x)
    requires SortedBy(rest, le) && multiset(rest) == multiset(s[1..]) + multiset{x}
    ensures SortedBy([s[0]] + rest, le)
    ensures multiset([s[0]] + rest) == multiset(s) + multiset{x}
  {
    assert s == [s[0]] + s[1..];
    assert forall j :: 0 <= j < |rest| ==> le(s[0], rest[j]) by {
      forall j | 0 <= j < |rest| ensures le(s[0], rest[j]) {
        assert rest[j] in multiset(rest);
        if rest[j] != x {
          assert rest[j] in multiset(s[1..]);
          var k :| 0 <= k < |s[1..]| && s[1..][k] == rest[j];
          assert s[k + 1] == rest[j];
        }
      }
    }
    var r := [s[0]] + rest;
    assert forall j :: 0 < j < |r| ==> r[j] == rest[j - 1];
  }

  /** Insertion of the elements from left to right. */
  function InsertionSort<T>(s: seq<T>, le: (T, T) -> bool): seq<T>
  {
    if |s| == 0 then [] else Insert(s[|s| - 1], InsertionSort(s[..|s| - 1], le), le)
  }

  lemma {:induction false} InsertionSortFacts<T(!new)>(s: seq<T>, le: (T, T) -> bool)
    requires TotalPreorder(le)
    ensures SortedBy(InsertionSort(s, le), le)
    ensures multiset(InsertionSort(s, le)) == multiset(s)
    ensures |InsertionSort(s, le)| == |s|
  {
    if |s| > 0 {
      InsertionSortFacts(s[..|s| - 1], le);
      InsertFacts(s[|s| - 1], InsertionSort(s[..|s| - 1], le), le);
      assert s == s[..|s| - 1] + [s[|s| - 1]];
    }
  }

  /**
   * `Array.prototype.sort` with a comparator returning a non-positive number
   * exactly when `le(a, b)`; `SortStable` shows that it is stable.
   */
  function Sort<T(!new)>(s: seq<T>, le: (T, T) -> bool): (r: seq<T>)
    requires TotalPreorder(le)
    ensures SortedBy(r, le)
    ensures multiset(r) == multiset(s)
    ensures |r| == |s|
  {
    InsertionSortFacts(s, le);
    InsertionSort(s, le)
  }

  /** A comparator under which every pair is in order leaves the input as it is. */
  lemma SortKeepsOrderWhenAllEqual<T(!new)>(s: seq<T>, le: (T, T) -> bool)
    requires forall x, y :: le(x, y)
    ensures TotalPreorder(le)
    ensures Sort(s, le) == s
  {
    InsertionSortKeepsOrder(s, le);
  }

  lemma {:induction false} InsertionSortKeepsOrder<T>(s: seq<T>, le: (T, T) -> bool)
    requires forall x, y :: le(x, y)
    ensures InsertionSort(s, le) == s
  {
    if |s| > 0 {
      InsertionSortKeepsOrder(s[..|s| - 1], le);
      InsertAtEnd(s[|s| - 1], s[..|s| - 1], le);
      assert s == s[..|s| - 1] + [s[|s| - 1]];
    }
  }

  lemma {:induction false} InsertAtEnd<T>(x: T, s: seq<T>, le: (T, T) -> bool)
    requires forall a, b :: le(a, b)
    ensures Insert(x, s, le) == s + [x]
  {
    if |s| > 0 {
      InsertAtEnd(x, s[1..], le);
      assert s == [s[0]] + s[1..];
    }
  }

  /** The elements that `le` ranks equal to `c`. */
  function SameRank<T>(le: (T, T) -> bool, c: T): T -> bool
  {
    (y: T) => le(c, y) && le(y, c)
  }

  /**
   * The sort is stable: the elements of every rank appear in the result in
   * the order they had in the input.
   */
  lemma SortStable<T(!new)>(s: seq<T>, le: (T, T) -> bool, c: T)
    requires TotalPreorder(le)
    ensures Filter(Sort(s, le), SameRank(le, c)) == Filter(s, SameRank(le, c))
  {
    InsertionSortStable(s, le, c);
  }

  lemma {:induction false} InsertionSortStable<T(!new)>(s: seq<T>, le: (T, T) -> bool, c: T)
    requires TotalPreorder(le)
    ensures Kept(InsertionSort(s, le), SameRank(le, c)) == Kept(s, SameRank(le, c))
  {
    if |s| > 0 {
      var init, x := s[..|s| - 1], s[|s| - 1];
      InsertionSortStable(init, le, c);
      InsertionSortFacts(init, le);
      InsertStable(x, InsertionSort(init, le), le, c);
      KeptSnoc(init, x, SameRank(le, c));
      assert s == init + [x];
    }
  }

  /** Inserting `x` puts it after every element of its rank already present. */
  lemma {:induction false} InsertStable<T(!new)>(x: T, s: seq<T>, le: (T, T) -> bool, c: T)
    requires TotalPreorder(le) && SortedBy(s, le)
    ensures Kept(Insert(x, s, le), SameRank(le, c))
         == Kept(s, SameRank(le, c)) + (if SameRank(le, c)(x) then [x] else [])
  {
    var p := SameRank(le, c);
    if |s| == 0 {
      assert [x][1..] == [];
    } else if !le(s[0], x) {
      InsertInFrontKept(x, s, le, c);
    } else {
      SortedTail(s, le);
      InsertStable(x, s[1..], le, c);
      var rest := Insert(x, s[1..], le);
      assert Insert(x, s, le) == [s[0]] + rest;
      assert ([s[0]] + rest)[1..] == rest;
      assert Kept(Insert(x, s, le), p) == (if p(s[0]) then [s[0]] else []) + Kept(rest, p);
      assert Kept(s, p) == (if p(s[0]) then [s[0]] else []) + Kept(s[1..], p);
    }
  }

  lemma InsertInFrontKept<T(!new)>(x: T, s: seq<T>, le: (T, T) -> bool, c: T)
    requires TotalPreorder(le) && SortedBy(s, le)
    requires |s| > 0 && !le(s[0], x)
    ensures Kept([x] + s, SameRank(le, c)) == Kept(s, SameRank(le, c)) + (if SameRank(le, c)(x) then [x] else [])
  {
    var p := SameRank(le, c);
    assert ([x] + s)[1..] == s;
    if p(x) {
      NoneOfRankAfter(x, s, le, c);
      KeptNone(s, p);
    }
  }

  /** An element sorted before everything in `s` has no element of its rank in `s`. */
  lemma NoneOfRankAfter<T(!new)>(x: T, s: seq<T>, le: (T, T) -> bool, c: T)
    requires TotalPreorder(le) && SortedBy(s, le)
    requires |s| > 0 && !le(s[0], x) && SameRank(le, c)(x)
    ensures forall k :: 0 <= k < |s| ==> !SameRank(le, c)(s[k])
  {
    assert le(s[0], s[0]);
    assert forall k :: 0 <= k < |s| ==> le(s[0], s[k]);
  }

  lemma {:induction false} KeptNone<T>(s: seq<T>, p: T -> bool)
    requires forall k :: 0 <= k < |s| ==> !p(s[k])
    ensures Kept(s, p) == []
  {
    if |s| > 0 {
      KeptNone(s[1..], p);
    }
  }

  /**
   * Two sorted arrangements of the same elements coincide when the comparator
   * is antisymmetric on those elements.
   */
  lemma {:induction false} SortedUnique<T(!new)>(a: seq<T>, b: seq<T>, le: (T, T) -> bool)
    requires SortedBy(a, le) && SortedBy(b, le)
    requires multiset(a) == multiset(b)
    requires forall x, y :: x in a && y in a && le(x, y) && le(y, x) ==> x == y
    ensures a == b
  {
    assert |a| == |multiset(a)| == |multiset(b)| == |b|;
    if |a| > 0 {
      SortedHeadsEqual(a, b, le);
      assert a == [a[0]] + a[1..];
      assert b == [b[0]] + b[1..];
      assert multiset(a[1..]) == multiset(a) - multiset{a[0]};
      assert multiset(b[1..]) == multiset(b) - multiset{b[0]};
      SortedTail(a, le);
      SortedTail(b, le);
      forall x, y | x in a[1..] && y in a[1..] && le(x, y) && le(y, x) ensures x == y {
        assert x in a && y in a;
      }
      SortedUnique(a[1..], b[1..], le);
    }
  }

  lemma SortedHeadsEqual<T(!new)>(a: seq<T>, b: seq<T>, le: (T, T) -> bool)
    requires |a| > 0 && |b| > 0
    requires SortedBy(a, le) && SortedBy(b, le)
    requires multiset(a) == multiset(b)
    requires forall x, y :: x in a && y in a && le(x, y) && le(y, x) ==> x == y
    ensures a[0] == b[0]
  {
    assert a[0] in multiset(b);
    var j :| 0 <= j < |b| && b[j] == a[0];
    assert b[0] in multiset(a);
    var i :| 0 <= i < |a| && a[i] == b[0];
  }

  lemma SortedTail<T>(s: seq<T>, le: (T, T) -> bool)
    requires |s| > 0 && SortedBy(s, le)
    ensures SortedBy(s[1..], le)
  {
    forall i, j | 0 <= i < j < |s[1..]| ensures le(s[1..][i], s[1..][j]) {
      assert s[1..][i] == s[i + 1] && s[1..][j] == s[j + 1];
    }
  }
}
