/** Facts about sequences that several parts of the model share. */
module Sequences {

  ghost predicate NoDup<T>(s: seq<T>) {
    forall i, j :: 0 <= i < j < |s| ==> s[i] != s[j]
  }

  /** `a` is obtained from `b` by deleting elements. */
  ghost predicate Subsequence<T>(a: seq<T>, b: seq<T>)
    decreases |b|
  {
    if a == [] then true
    else if b == [] then false
    else
      var a', b' := a[..|a| - 1], b[..|b| - 1];
      Subsequence(a, b') || (a[|a| - 1] == b[|b| - 1] && Subsequence(a', b'))
  }

  lemma SubsequenceAppend<T>(a: seq<T>, b: seq<T>, x: T)
    requires Subsequence(a, b)
    ensures Subsequence(a + [x], b + [x])
    ensures Subsequence(a, b + [x])
  {
    assert (a + [x])[..|a|] == a;
    assert (b + [x])[..|b|] == b;
  }

  lemma {:induction false} SubsequenceLength<T>(a: seq<T>, b: seq<T>)
    requires Subsequence(a, b)
    ensures |a| <= |b|
    decreases |b|
  {
    if a == [] {
    } else if Subsequence(a, b[..|b| - 1]) {
      SubsequenceLength(a, b[..|b| - 1]);
    } else {
      SubsequenceLength(a[..|a| - 1], b[..|b| - 1]);
    }
  }

  lemma SubsequenceMaybe<T>(a: seq<T>, b: seq<T>, x: T, taken: bool)
    requires Subsequence(a, b)
    ensures Subsequence(a + if taken then [x] else [], b + [x])
  {
    SubsequenceAppend(a, b, x);
    assert a + [] == a;
  }

  /** Deleting one more element keeps a subsequence. */
  lemma {:induction false} SubsequenceDelete<T>(a: seq<T>, b: seq<T>, i: nat)
    requires i < |a| && Subsequence(a, b)
    ensures Subsequence(a[..i] + a[i + 1..], b)
    decreases |b|
  {
    var d := a[..i] + a[i + 1..];
    var b' := b[..|b| - 1];
    if Subsequence(a, b') {
      SubsequenceDelete(a, b', i);
    } else {
      var a' := a[..|a| - 1];
      if i == |a| - 1 {
        assert d == a';
        SubsequenceAppend(a', b', b[|b| - 1]);
        assert b == b' + [b[|b| - 1]];
      } else {
        SubsequenceDelete(a', b', i);
        assert d[..|d| - 1] == a'[..i] + a'[i + 1..];
      }
    }
  }

  lemma SubsequenceDeleteBetween<T>(p: seq<T>, q: seq<T>, x: T, r: seq<T>, b: seq<T>)
    requires Subsequence(p + (q + [x] + r), b)
    ensures Subsequence(p + (q + r), b)
  {
    var a := p + (q + [x] + r);
    var i := |p| + |q|;
    assert a[..i] + a[i + 1..] == p + (q + r);
    SubsequenceDelete(a, b, i);
  }

  lemma {:induction false} SubsequenceTakePrefix<T>(a: seq<T>, c: seq<T>, b: seq<T>)
    requires Subsequence(a + c, b)
    ensures Subsequence(a, b)
    decreases |c|
  {
    if c == [] {
      assert a + c == a;
    } else {
      SubsequenceDelete(a + c, b, |a + c| - 1);
      assert (a + c)[..|a + c| - 1] + (a + c)[|a + c|..] == a + c[..|c| - 1];
      SubsequenceTakePrefix(a, c[..|c| - 1], b);
    }
  }

  lemma {:induction false} SubsequenceTransitive<T>(a: seq<T>, b: seq<T>, c: seq<T>)
    requires Subsequence(a, b) && Subsequence(b, c)
    ensures Subsequence(a, c)
    decreases |c|
  {
    if a == [] {
    } else {
      var b', c' := b[..|b| - 1], c[..|c| - 1];
      if Subsequence(b, c') {
        SubsequenceTransitive(a, b, c');
      } else if Subsequence(a, b') {
        SubsequenceTransitive(a, b', c');
      } else {
        SubsequenceTransitive(a[..|a| - 1], b', c');
      }
    }
  }

  /** Moves the first of what is left to the end of what was read. */
  lemma ReadOne<T>(all: seq<T>, read: seq<T>, left: seq<T>)
    requires all == read + left && left != []
    ensures all == read + [left[0]] + left[1..]
  {
  }

  /** The index of the first `x`, or the length when there is none. */
  function FirstIndex<T(==)>(s: seq<T>, x: T): (k: nat)
    ensures k <= |s| && (k < |s| ==> s[k] == x)
    ensures forall j :: 0 <= j < k ==> s[j] != x
  {
    if s == [] || s[0] == x then 0 else 1 + FirstIndex(s[1..], x)
  }

  lemma FirstIndexIs<T>(s: seq<T>, x: T, k: nat)
    requires k <= |s| && (k < |s| ==> s[k] == x)
    requires forall j :: 0 <= j < k ==> s[j] != x
    ensures FirstIndex(s, x) == k && (x in s <==> k < |s|)
  {
  }

  /** The search may be split at any point. */
  lemma {:induction false} FirstIndexSplit<T>(s: seq<T>, x: T, n: nat)
    requires n <= |s|
    ensures FirstIndex(s, x) == if FirstIndex(s[..n], x) < n then FirstIndex(s[..n], x) else n + FirstIndex(s[n..], x)
  {
    var a, b := FirstIndex(s[..n], x), FirstIndex(s[n..], x);
    if a < n {
      FirstIndexIs(s, x, a);
    } else {
      assert forall j :: n <= j < n + b ==> s[j] == s[n..][j - n];
      FirstIndexIs(s, x, n + b);
    }
  }

  // ------------------------------------------------------------ filters

  /** The elements to keep, in their order. */
  ghost function Where<T>(s: seq<T>, keep: T -> bool): seq<T> {
    if s == [] then [] else (if keep(s[0]) then [s[0]] else []) + Where(s[1..], keep)
  }

  lemma {:induction false} WhereAppend<T>(a: seq<T>, b: seq<T>, keep: T -> bool)
    ensures Where(a + b, keep) == Where(a, keep) + Where(b, keep)
    decreases |a|
  {
    if a == [] {
      assert a + b == b;
    } else {
      assert (a + b)[1..] == a[1..] + b;
      WhereAppend(a[1..], b, keep);
      var head, x, y := if keep(a[0]) then [a[0]] else [], Where(a[1..], keep), Where(b, keep);
      assert Where(a + b, keep) == head + (x + y);
      assert head + (x + y) == (head + x) + y;
    }
  }

  lemma {:induction false} WhereAllOrNone<T>(s: seq<T>, keep: T -> bool, all: bool)
    requires forall i :: 0 <= i < |s| ==> keep(s[i]) == all
    ensures Where(s, keep) == if all then s else []
    decreases |s|
  {
    if s == [] {
    } else {
      WhereAllOrNone(s[1..], keep, all);
      assert s == [s[0]] + s[1..];
    }
  }

  /** A filter keeps every copy of what it keeps, and nothing else. */
  lemma {:induction false} WhereCounts<T>(s: seq<T>, keep: T -> bool, x: T)
    ensures multiset(Where(s, keep))[x] == if keep(x) then multiset(s)[x] else 0
    decreases |s|
  {
    if s == [] {
    } else {
      WhereCounts(s[1..], keep, x);
      assert s == [s[0]] + s[1..];
    }
  }

  lemma WherePermutation<T(!new)>(a: seq<T>, b: seq<T>, keep: T -> bool)
    requires multiset(a) == multiset(b)
    ensures multiset(Where(a, keep)) == multiset(Where(b, keep))
  {
    forall x: T
      ensures multiset(Where(a, keep))[x] == multiset(Where(b, keep))[x]
    {
      WhereCounts(a, keep, x);
      WhereCounts(b, keep, x);
    }
  }

  /** At most one element has no other order. */
  lemma PermutationOfFew<T>(a: seq<T>, b: seq<T>)
    requires multiset(a) == multiset(b) && |b| <= 1
    ensures a == b
  {
    assert |multiset(a)| == |a| && |multiset(b)| == |b|;
    if |b| == 1 { assert a[0] in multiset(b); }
  }

  lemma WhereNext<T>(s: seq<T>, n: nat, keep: T -> bool)
    requires n < |s|
    ensures Where(s[..n + 1], keep) == Where(s[..n], keep) + if keep(s[n]) then [s[n]] else []
  {
    assert s[..n + 1] == s[..n] + [s[n]];
    WhereAppend(s[..n], [s[n]], keep);
  }

  lemma {:induction false} WhereSubsequence<T>(s: seq<T>, keep: T -> bool)
    ensures Subsequence(Where(s, keep), s)
    decreases |s|
  {
    if s == [] {
    } else {
      var p, x := s[..|s| - 1], s[|s| - 1];
      WhereSubsequence(p, keep);
      SubsequenceMaybe(Where(p, keep), p, x, keep(x));
      WhereOneMore(p, x, keep);
      assert s == p + [x];
    }
  }

  lemma WhereOneMore<T>(p: seq<T>, x: T, keep: T -> bool)
    ensures Where(p + [x], keep) == Where(p, keep) + if keep(x) then [x] else []
  {
    WhereAppend(p, [x], keep);
  }

  lemma MultisetWithout<T>(s: seq<T>, k: nat)
    requires k < |s|
    ensures multiset(s[..k] + s[k + 1..]) == multiset(s) - multiset{s[k]}
  {
    assert s == s[..k] + ([s[k]] + s[k + 1..]);
  }

  // ------------------------------------------------------------ sums

  function Sum(s: seq<nat>): nat {
    if s == [] then 0 else s[0] + Sum(s[1..])
  }

  /** Lowering entries of a sequence lowers its sum, by at least as much as entry `j` drops. */
  lemma {:induction false} SumDrops(a: seq<nat>, b: seq<nat>, j: nat, d: nat)
    requires |a| == |b| && j < |a|
    requires forall i :: 0 <= i < |a| ==> b[i] <= a[i]
    requires b[j] + d <= a[j]
    ensures Sum(b) + d <= Sum(a)
  {
    if j == 0 {
      SumMonotone(a[1..], b[1..]);
    } else {
      SumDrops(a[1..], b[1..], j - 1, d);
    }
  }

  lemma {:induction false} SumMonotone(a: seq<nat>, b: seq<nat>)
    requires |a| == |b|
    requires forall i :: 0 <= i < |a| ==> b[i] <= a[i]
    ensures Sum(b) <= Sum(a)
  {
    if a == [] {
    } else {
      SumMonotone(a[1..], b[1..]);
    }
  }
}
