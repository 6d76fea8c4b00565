/**
What the tables rely on `std::sort` for: some rearrangement in which no row is less than
one before it. Rows that compare equal may end up in any order.
*/
module Sorting {

  /** Not being less is transitive, which a strict weak order has to guarantee. */
  ghost predicate IsOrder<T(!new)>(less: (T, T) -> bool) {
    && (forall a, b, c :: !less(b, a) && !less(c, b) ==> !less(c, a))
    && (forall a, b :: less(a, b) ==> !less(b, a))
  }

  ghost predicate Ordered<T>(s: seq<T>, less: (T, T) -> bool) {
    forall i, j :: 0 <= i < j < |s| ==> !less(s[j], s[i])
  }

  method Insert<T(!new)>(s: seq<T>, x: T, less: (T, T) -> bool) returns (r: seq<T>)
    requires IsOrder(less) && Ordered(s, less)
    ensures Ordered(r, less) && multiset(r) == multiset(s) + multiset{x}
  {
    var k := |s|;
    while k > 0 && less(x, s[k - 1])
      invariant 0 <= k <= |s|
      invariant forall j :: k <= j < |s| ==> less(x, s[j])
    {
      k := k - 1;
    }
    r := s[..k] + [x] + s[k..];
    InsertKeepsRows(s, x, k);
    forall i, j | 0 <= i < j < |r|
      ensures !less(r[j], r[i])
    {
      OrderedInsert(s, x, less, k, i, j);
    }
  }

  lemma InsertKeepsRows<T>(s: seq<T>, x: T, k: nat)
    requires k <= |s|
    ensures multiset(s[..k] + [x] + s[k..]) == multiset(s) + multiset{x}
  {
    assert s == s[..k] + s[k..];
  }

  lemma OrderedInsert<T(!new)>(s: seq<T>, x: T, less: (T, T) -> bool, k: nat, i: nat, j: nat)
    requires IsOrder(less) && Ordered(s, less) && k <= |s| && i < j <= |s|
    requires k == 0 || !less(x, s[k - 1])
    requires forall j :: k <= j < |s| ==> less(x, s[j])
    ensures var r := s[..k] + [x] + s[k..]; !less(r[j], r[i])
  {
    if j == k && i < k - 1 {
      assert !less(s[k - 1], s[i]);
    }
  }

  method Sort<T(!new)>(rows: seq<T>, less: (T, T) -> bool) returns (sorted: seq<T>)
    requires IsOrder(less)
    ensures Ordered(sorted, less) && multiset(sorted) == multiset(rows)
  {
    sorted := [];
    for i := 0 to |rows|
      invariant Ordered(sorted, less) && multiset(sorted) == multiset(rows[..i])
    {
      assert rows[..i + 1] == rows[..i] + [rows[i]];
      sorted := Insert(sorted, rows[i], less);
    }
    assert rows[..|rows|] == rows;
  }

  // ------------------------------------------------------------ comparing strings

  predicate LexLess(a: string, b: string) {
    b != "" && (a == "" || a[0] < b[0] || (a[0] == b[0] && LexLess(a[1..], b[1..])))
  }

  lemma {:induction false} LexIsTotal(a: string, b: string)
    ensures LexLess(a, b) ==> !LexLess(b, a)
    ensures !LexLess(a, b) && !LexLess(b, a) ==> a == b
    decreases |a|
  {
    if a == "" || b == "" || a[0] != b[0] {
    } else {
      LexIsTotal(a[1..], b[1..]);
      assert a == [a[0]] + a[1..] && b == [b[0]] + b[1..];
    }
  }

  lemma {:induction false} LexIsTransitive(a: string, b: string, c: string)
    requires !LexLess(b, a) && !LexLess(c, b)
    ensures !LexLess(c, a)
    decreases |a|
  {
    if a == "" || b == "" || c == "" || !(a[0] == b[0] == c[0]) {
    } else {
      LexIsTransitive(a[1..], b[1..], c[1..]);
    }
  }

  /** The strings agree up to `k`, where `a` ends first or has the smaller character. */
  predicate PrecedesAt(a: string, b: string, k: nat) {
    && k <= |a| && k < |b|
    && (forall i :: 0 <= i < k ==> a[i] == b[i])
    && (k == |a| || a[k] < b[k])
  }

  ghost predicate Precedes(a: string, b: string) {
    exists k: nat :: PrecedesAt(a, b, k)
  }

  lemma {:induction false} LexMeans(a: string, b: string)
    ensures LexLess(a, b) <==> Precedes(a, b)
    decreases |a|
  {
    if a == "" || b == "" || a[0] != b[0] {
      if LexLess(a, b) { assert PrecedesAt(a, b, 0); }
    } else {
      LexMeans(a[1..], b[1..]);
      if k: nat :| PrecedesAt(a[1..], b[1..], k) {
        assert forall i :: 1 <= i < k + 1 ==> a[i] == a[1..][i - 1] && b[i] == b[1..][i - 1];
        assert PrecedesAt(a, b, k + 1);
      }
      if k: nat :| PrecedesAt(a, b, k) {
        assert PrecedesAt(a[1..], b[1..], k - 1);
      }
    }
  }
}
