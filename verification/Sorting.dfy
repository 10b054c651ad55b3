/** `sort` with a comparison function. */
module Sorting {
  import opened Sequences

  /** `compare(a, b) <= 0`, of which only this is used. */
  ghost predicate TotalOrder<T(!new)>(leq: (T, T) -> bool) {
    && (forall a, b :: leq(a, b) || leq(b, a))
    && (forall a, b, c :: leq(a, b) && leq(b, c) ==> leq(a, c))
  }

  ghost predicate SortedBy<T>(s: seq<T>, leq: (T, T) -> bool) {
    forall i, j :: 0 <= i < j < |s| ==> leq(s[i], s[j])
  }

  /** `(a, b) => text(a).localeCompare(text(b))` */
  function By<T>(text: T -> string, leq: (string, string) -> bool): (T, T) -> bool {
    (a: T, b: T) => leq(text(a), text(b))
  }

  lemma ByIsTotal<T(!new)>(text: T -> string, leq: (string, string) -> bool)
    requires TotalOrder(leq)
    ensures TotalOrder(By(text, leq))
  {
    var order := By(text, leq);
    forall a, b, c | order(a, b) && order(b, c) ensures order(a, c) {
      assert leq(text(a), text(b)) && leq(text(b), text(c));
    }
  }

  method Sort<T(!new)>(s: seq<T>, leq: (T, T) -> bool) returns (r: seq<T>)
    requires TotalOrder(leq)
    ensures SortedBy(r, leq) && multiset(r) == multiset(s)
  {
    r := [];
    var n := 0;
    while n < |s|
      invariant 0 <= n <= |s| && SortedBy(r, leq) && multiset(r) == multiset(s[..n])
    {
      var k := 0;
      while k < |r| && leq(r[k], s[n])
        invariant 0 <= k <= |r| && forall m :: 0 <= m < k ==> leq(r[m], s[n])
      {
        k := k + 1;
      }
      InsertSorted(r, k, s[n], leq);
      InsertPermutes(r, k, s[n]);
      assert s[..n + 1] == s[..n] + [s[n]];
      r := r[..k] + [s[n]] + r[k..];
      n := n + 1;
    }
    assert s[..n] == s;
  }

  lemma InsertPermutes<T>(r: seq<T>, k: nat, x: T)
    requires k <= |r|
    ensures multiset(r[..k] + [x] + r[k..]) == multiset(r) + multiset{x}
  {
    assert r == r[..k] + r[k..];
  }

  lemma InsertSorted<T(!new)>(r: seq<T>, k: nat, x: T, leq: (T, T) -> bool)
    requires k <= |r| && TotalOrder(leq) && SortedBy(r, leq)
    requires (forall m :: 0 <= m < k ==> leq(r[m], x)) && (k < |r| ==> !leq(r[k], x))
    ensures SortedBy(r[..k] + [x] + r[k..], leq)
  {
    var s := r[..k] + [x] + r[k..];
    forall m | k <= m < |r| ensures leq(x, r[m]) {
      assert leq(x, r[k]);
    }
    forall i, j | 0 <= i < j < |s| ensures leq(s[i], s[j]) {
      var i', j' := if i <= k then i else i - 1, if j <= k then j else j - 1;
      assert i != k ==> s[i] == r[i'];
      assert j != k ==> s[j] == r[j'];
    }
  }

  lemma PermutationMembers<T(!new)>(r: seq<T>, s: seq<T>)
    requires multiset(r) == multiset(s)
    ensures |r| == |s| && forall x :: x in r <==> x in s
  {
    assert |multiset(r)| == |r|;
    forall x ensures x in r <==> x in s {
      assert x in r <==> x in multiset(r);
    }
  }

  /** A permutation of a list without duplicates has none. */
  lemma PermutationDistinct<T(!new)>(r: seq<T>, s: seq<T>)
    requires multiset(r) == multiset(s) && NoDuplicates(s)
    ensures NoDuplicates(r)
  {
    forall i, j | 0 <= i < j < |r| ensures r[i] != r[j] {
      if r[i] == r[j] {
        TwiceCounts(r, i, j);
        DistinctCounts(s, r[i]);
      }
    }
  }

  lemma TwiceCounts<T>(r: seq<T>, i: nat, j: nat)
    requires i < j < |r| && r[i] == r[j]
    ensures multiset(r)[r[i]] >= 2
  {
    assert r == r[..j] + [r[j]] + r[j + 1..];
    assert r[i] == r[..j][i] && r[i] in r[..j];
  }

  lemma {:induction false} DistinctCounts<T>(s: seq<T>, x: T)
    requires NoDuplicates(s)
    ensures multiset(s)[x] <= 1
  {
    if |s| > 0 {
      var init, last := s[..|s| - 1], s[|s| - 1];
      DistinctCounts(init, x);
      assert s == init + [last];
      assert last !in init;
    }
  }
}
