/** The label-suffix lookup of `domainMatchesSetWithMatch`: a walk over `parts.slice(i).join(".")`, proved against the
    plain definition "the domain is the entry, or ends with a dot and the entry". */
module DomainSuffix {
  import opened Options
  import opened Strings
  import opened RuleOptimizer

  predicate Under(domain: string, entry: string) {
    domain == entry || EndsWith(domain, "." + entry)
  }

  function Labels(domain: string): (parts: seq<string>)
    ensures |parts| >= 1
  {
    Split(domain, '.')
  }

  lemma {:induction false} JoinOfLabels(s: string)
    ensures Join(Labels(s)) == s
  {
    var n := FirstOf(s, '.');
    if n < |s| {
      JoinOfLabels(s[n + 1..]);
      assert Labels(s)[1..] == Labels(s[n + 1..]);
      assert s == s[..n] + "." + s[n + 1..];
    }
  }

  /** The text behind the dot at `k`. */
  predicate Behind(s: string, k: int, e: string) {
    0 <= k < |s| && s[k] == '.' && e == s[k + 1..]
  }

  lemma UnderIffBehind(s: string, e: string)
    ensures Under(s, e) <==> s == e || exists k :: Behind(s, k, e)
  {
    var k := |s| - |e| - 1;
    if EndsWith(s, "." + e) {
      assert s[k..] == "." + e;
      assert s[k] == (s[k..])[0] && s[k + 1..] == (s[k..])[1..];
      assert Behind(s, k, e);
    }
    forall j | Behind(s, j, e) ensures EndsWith(s, "." + e) {
      assert j == k && s[j..] == [s[j]] + s[j + 1..];
    }
  }

  /** The dots of `s` and the proper tails of its label list correspond. */
  lemma {:induction false} TailIsBehind(s: string, i: nat)
    requires 1 <= i < |Labels(s)|
    ensures exists k :: Behind(s, k, Join(Labels(s)[i..]))
  {
    var n := FirstOf(s, '.');
    var rest := s[n + 1..];
    assert Labels(s)[1..] == Labels(rest) && Labels(s)[i..] == Labels(rest)[i - 1..];
    if i == 1 {
      JoinOfLabels(rest);
      assert Labels(rest)[0..] == Labels(rest);
      assert Behind(s, n, rest);
    } else {
      TailIsBehind(rest, i - 1);
      var k :| Behind(rest, k, Join(Labels(rest)[i - 1..]));
      assert rest[k + 1..] == s[n + 1 + k + 1..];
      assert Behind(s, n + 1 + k, Join(Labels(s)[i..]));
    }
  }

  lemma {:induction false} BehindIsTail(s: string, k: int, e: string)
    requires Behind(s, k, e)
    ensures exists i :: 1 <= i < |Labels(s)| && e == Join(Labels(s)[i..])
  {
    var n := FirstOf(s, '.');
    var rest := s[n + 1..];
    assert n <= k && n < |s|;
    assert Labels(s)[1..] == Labels(rest);
    if k == n {
      JoinOfLabels(rest);
      assert e == Join(Labels(s)[1..]);
    } else {
      assert rest[k - n - 1 + 1..] == s[k + 1..];
      BehindIsTail(rest, k - n - 1, e);
      var i :| 1 <= i < |Labels(rest)| && e == Join(Labels(rest)[i..]);
      assert Labels(s)[i + 1..] == Labels(rest)[i..];
    }
  }

  lemma {:induction false} TailsShrink(parts: seq<string>, i: nat)
    requires i <= |parts|
    ensures |Join(parts[i..])| <= |Join(parts)|
    decreases i
  {
    if i == 0 {
      assert parts[0..] == parts;
    } else {
      TailsShrink(parts[1..], i - 1);
      assert parts[1..][i - 1..] == parts[i..];
    }
  }

  lemma LaterTailIsShorter(parts: seq<string>, i: nat, j: nat)
    requires i <= j <= |parts|
    ensures |Join(parts[j..])| <= |Join(parts[i..])|
  {
    TailsShrink(parts[i..], j - i);
    assert parts[i..][j - i..] == parts[j..];
  }

  /** The entries a domain falls under are the domain itself and the proper tails of its label list. */
  lemma UnderIffTail(domain: string, entry: string)
    ensures Under(domain, entry) <==>
            domain == entry || exists i :: 1 <= i < |Labels(domain)| && entry == Join(Labels(domain)[i..])
  {
    UnderIffBehind(domain, entry);
    if k :| Behind(domain, k, entry) {
      BehindIsTail(domain, k, entry);
    }
    if i :| 1 <= i < |Labels(domain)| && entry == Join(Labels(domain)[i..]) {
      TailIsBehind(domain, i);
    }
  }

  /** The lookup finds an entry exactly when the domain falls under one, and then the longest. */
  method MatchInSet(domain: string, entries: set<string>) returns (found: Option<string>)
    ensures found.None? <==> forall e :: e in entries ==> !Under(domain, e)
    ensures found.Some? ==> found.value in entries && Under(domain, found.value)
    ensures found.Some? ==> forall e :: e in entries && Under(domain, e) ==> |e| <= |found.value|
  {
    if domain in entries {
      forall e | Under(domain, e) ensures |e| <= |domain| {
      }
      return Some(domain);
    }
    var parts := Labels(domain);
    var i := 1;
    while i < |parts|
      invariant 1 <= i <= |parts|
      invariant forall j :: 1 <= j < i ==> Join(parts[j..]) !in entries
    {
      var parent := Join(parts[i..]);
      if parent in entries {
        UnderIffTail(domain, parent);
        forall e | e in entries && Under(domain, e) ensures |e| <= |parent| {
          UnderIffTail(domain, e);
          var j :| 1 <= j < |parts| && e == Join(parts[j..]);
          LaterTailIsShorter(parts, i, j);
        }
        return Some(parent);
      }
      i := i + 1;
    }
    forall e | e in entries ensures !Under(domain, e) {
      UnderIffTail(domain, e);
    }
    return None;
  }
}
