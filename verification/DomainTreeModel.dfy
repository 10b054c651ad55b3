/** What the domain tree ought to say: counting over the input list, label path by label path. */
module DomainTreeModel {
  import opened Sequences
  import DomainSuffix

  /** Labels from the top level domain down: `domain.split(".").reverse()`. */
  type Path = seq<string>

  function Reverse(s: seq<string>): (r: seq<string>)
    ensures |r| == |s|
  {
    if |s| == 0 then [] else Reverse(s[1..]) + [s[0]]
  }

  function PathOf(domain: string): (p: Path)
    ensures |p| >= 1
  {
    Reverse(DomainSuffix.Labels(domain))
  }

  /** Domains, with multiplicity, at or below a path. */
  function Count(ds: seq<Path>, p: Path): nat {
    if |ds| == 0 then 0 else Count(ds[..|ds| - 1], p) + if p <= ds[|ds| - 1] then 1 else 0
  }

  /** Domains that are the path itself. */
  function CountEqual(ds: seq<Path>, p: Path): nat {
    if |ds| == 0 then 0 else CountEqual(ds[..|ds| - 1], p) + if p == ds[|ds| - 1] then 1 else 0
  }

  /** The first domain at or below the path is the path itself. */
  predicate LedBy(ds: seq<Path>, p: Path) {
    if |ds| == 0 then false
    else if Count(ds[..|ds| - 1], p) > 0 then LedBy(ds[..|ds| - 1], p)
    else p == ds[|ds| - 1]
  }

  lemma {:induction false} CountIffPrefix(ds: seq<Path>, p: Path)
    ensures Count(ds, p) > 0 <==> exists d :: d in ds && p <= d
  {
    if |ds| > 0 {
      var n := |ds| - 1;
      CountIffPrefix(ds[..n], p);
      if d :| d in ds && p <= d {
        assert d in ds[..n] || d == ds[n];
      }
      if d :| d in ds[..n] && p <= d {
        assert d in ds;
      }
      assert ds[n] in ds;
    }
  }

  /** `LedBy` in plain words. */
  lemma {:induction false} LedByIff(ds: seq<Path>, p: Path)
    ensures LedBy(ds, p) <==> exists n :: 0 <= n < |ds| && ds[n] == p && Count(ds[..n], p) == 0
  {
    if |ds| > 0 {
      var k := |ds| - 1;
      LedByIff(ds[..k], p);
      if n :| 0 <= n < |ds[..k]| && ds[..k][n] == p && Count(ds[..k][..n], p) == 0 {
        assert ds[n] == p && ds[..k][..n] == ds[..n];
      }
      if n :| 0 <= n < |ds| && ds[n] == p && Count(ds[..n], p) == 0 {
        if n < k {
          assert ds[..k][n] == p && ds[..k][..n] == ds[..n];
          CountIffPrefix(ds[..k], p);
          assert ds[n] in ds[..k];
        }
      }
    }
  }

  lemma CountSnoc(ds: seq<Path>, d: Path, p: Path)
    ensures Count(ds + [d], p) == Count(ds, p) + if p <= d then 1 else 0
    ensures LedBy(ds + [d], p) == if Count(ds, p) > 0 then LedBy(ds, p) else p == d
  {
    InitOfAppend(ds, d);
  }

  // ---- children add up ---------------------------------------------------------------------------------------

  function SumOver(ds: seq<Path>, p: Path, labels: seq<string>): nat {
    if |labels| == 0 then 0
    else SumOver(ds, p, labels[..|labels| - 1]) + Count(ds, p + [labels[|labels| - 1]])
  }

  lemma NextLabel(p: Path, d: Path, name: string)
    ensures p + [name] <= d <==> p <= d && |p| < |d| && d[|p|] == name
  {
  }

  /** One more domain counts for exactly one child, or for none. */
  lemma {:induction false} SumOverSnoc(ds: seq<Path>, d: Path, p: Path, labels: seq<string>)
    requires NoDuplicates(labels)
    ensures SumOver(ds + [d], p, labels) ==
            SumOver(ds, p, labels) + if p <= d && |p| < |d| && d[|p|] in labels then 1 else 0
  {
    if |labels| > 0 {
      var n := |labels| - 1;
      SumOverSnoc(ds, d, p, labels[..n]);
      CountSnoc(ds, d, p + [labels[n]]);
      NextLabel(p, d, labels[n]);
    }
  }

  /** A path's count is the number of domains that are the path plus the counts of its children. */
  lemma {:induction false} ChildrenAddUp(ds: seq<Path>, p: Path, labels: seq<string>)
    requires NoDuplicates(labels)
    requires forall d :: d in ds && p <= d && |p| < |d| ==> d[|p|] in labels
    ensures Count(ds, p) == CountEqual(ds, p) + SumOver(ds, p, labels)
  {
    if |ds| == 0 {
      NothingToSum(p, labels);
    } else {
      var n := |ds| - 1;
      ChildrenAddUp(ds[..n], p, labels);
      SumOverSnoc(ds[..n], ds[n], p, labels);
      InitLast(ds);
      assert ds[n] in ds;
    }
  }

  lemma {:induction false} NothingToSum(p: Path, labels: seq<string>)
    ensures SumOver([], p, labels) == 0
  {
    if |labels| > 0 {
      NothingToSum(p, labels[..|labels| - 1]);
    }
  }
}
