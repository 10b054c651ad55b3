/** What a tree says about the list of domains it was built from, in terms of the domains alone. */
module DomainTreeMeaning {
  import opened Strings
  import opened Sequences
  import opened DomainSuffix
  import opened DomainTreeModel
  import opened DomainTree
  import opened DomainTreeBuilder
  import RuleOptimizer

  function Join(labels: seq<string>): string {
    RuleOptimizer.Join(labels)
  }

  // ---- paths and domains -------------------------------------------------------------------------------------

  lemma {:induction false} ReverseConcat(a: seq<string>, b: seq<string>)
    ensures Reverse(a + b) == Reverse(b) + Reverse(a)
  {
    if |a| == 0 {
      assert a + b == b;
      Nil(Reverse(b));
    } else {
      assert (a + b)[1..] == a[1..] + b && (a + b)[0] == a[0];
      ReverseConcat(a[1..], b);
      Assoc(Reverse(b), Reverse(a[1..]), [a[0]]);
    }
  }

  lemma ReverseOfOne(x: string)
    ensures Reverse([x]) == [x]
  {
    assert [x][1..] == [];
  }

  lemma {:induction false} ReverseTwice(s: seq<string>)
    ensures Reverse(Reverse(s)) == s
  {
    if |s| > 0 {
      ReverseTwice(s[1..]);
      ReverseConcat(Reverse(s[1..]), [s[0]]);
      ReverseOfOne(s[0]);
      assert s == [s[0]] + s[1..];
    }
  }

  /** A path is a prefix of a reversed list exactly if, reversed, it is the end of the list. */
  lemma PrefixIffTail(p: Path, labels: seq<string>)
    ensures p <= Reverse(labels) <==> |p| <= |labels| && Reverse(p) == labels[|labels| - |p|..]
  {
    if |p| <= |labels| {
      var n := |labels| - |p|;
      var tail := labels[n..];
      assert labels == labels[..n] + tail;
      ReverseConcat(labels[..n], tail);
      assert p <= Reverse(labels) <==> p == Reverse(tail);
      ReverseTwice(p);
      ReverseTwice(tail);
    }
  }

  predicate Dotless(labels: seq<string>) {
    forall x :: x in labels ==> '.' !in x
  }

  lemma {:induction false} LabelsOfJoin(labels: seq<string>)
    requires |labels| > 0 && Dotless(labels)
    ensures Labels(Join(labels)) == labels
  {
    assert labels[0] in labels;
    if |labels| == 1 {
      SplitWhole(labels[0], '.');
    } else {
      LabelsOfJoin(labels[1..]);
      SplitConcat(labels[0], '.', Join(labels[1..]));
      assert labels == [labels[0]] + labels[1..];
    }
  }

  lemma {:induction false} ReverseMembers(s: seq<string>)
    ensures forall x :: x in Reverse(s) <==> x in s
  {
    if |s| > 0 {
      ReverseMembers(s[1..]);
      assert s == [s[0]] + s[1..];
    }
  }

  lemma PathIsDotless(domain: string)
    ensures Dotless(PathOf(domain))
  {
    PartsLackSeparator(domain, '.');
    ReverseMembers(Labels(domain));
  }

  /** A domain is at or below a path exactly if it falls under the path's name. */
  lemma BelowIffUnder(p: Path, domain: string)
    requires |p| > 0 && Dotless(p)
    ensures p <= PathOf(domain) <==> Under(domain, Join(Reverse(p)))
  {
    var labels, name := Labels(domain), Join(Reverse(p));
    PrefixIffTail(p, labels);
    UnderIffTail(domain, name);
    JoinOfLabels(domain);
    ReverseMembers(p);
    LabelsOfJoin(Reverse(p));
    PartsLackSeparator(domain, '.');
    forall i | 0 <= i < |labels| && name == Join(labels[i..]) ensures Reverse(p) == labels[i..] {
      LabelsOfJoin(labels[i..]);
    }
    assert labels[0..] == labels;
  }

  // ---- the whole list ----------------------------------------------------------------------------------------

  function Paths(domains: seq<string>): (r: seq<Path>)
    ensures |r| == |domains| && forall i :: 0 <= i < |r| ==> r[i] == PathOf(domains[i])
  {
    seq(|domains|, i requires 0 <= i < |domains| => PathOf(domains[i]))
  }

  lemma PathsSnoc(domains: seq<string>, n: nat)
    requires n < |domains|
    ensures Paths(domains[..n + 1]) == Paths(domains[..n]) + [PathOf(domains[n])]
  {
  }

  /** The positions of the domains that fall under `e`. */
  ghost function PlacesUnder(domains: seq<string>, e: string): set<nat> {
    set n: nat | n < |domains| && Under(domains[n], e)
  }

  lemma PlacesSnoc(domains: seq<string>, domain: string, e: string)
    ensures PlacesUnder(domains + [domain], e) ==
            PlacesUnder(domains, e) + if Under(domain, e) then {|domains|} else {}
    ensures |PlacesUnder(domains + [domain], e)| == |PlacesUnder(domains, e)| + if Under(domain, e) then 1 else 0
  {
    var all := domains + [domain];
    forall k: nat | k < |domains| ensures all[k] == domains[k] {
    }
    assert |domains| !in PlacesUnder(domains, e);
  }

  lemma {:induction false} CountIsPlaces(domains: seq<string>, p: Path)
    requires |p| > 0 && Dotless(p)
    ensures Count(Paths(domains), p) == |PlacesUnder(domains, Join(Reverse(p)))|
  {
    if |domains| == 0 {
      assert PlacesUnder(domains, Join(Reverse(p))) == {};
    } else {
      var n := |domains| - 1;
      CountIsPlaces(domains[..n], p);
      BelowIffUnder(p, domains[n]);
      InitLast(domains);
      PathsSnoc(domains, n);
      assert domains[..n + 1] == domains;
      CountSnoc(Paths(domains[..n]), PathOf(domains[n]), p);
      PlacesSnoc(domains[..n], domains[n], Join(Reverse(p)));
    }
  }

  lemma PathOfNode(nodes: seq<Node>, paths: seq<Path>, domains: seq<string>, i: nat)
    requires Represents(nodes, paths, Paths(domains)) && 0 < i < |nodes|
    ensures |paths[i]| > 0 && Dotless(paths[i]) && nodes[i].fullDomain == Join(Reverse(paths[i]))
    ensures ContentAt(nodes[i], paths[i], Paths(domains), [], []) && Count(Paths(domains), paths[i]) > 0
  {
    var ds := Paths(domains);
    assert ShapeAt(nodes, paths, i) && paths[i] in paths;
    assert ContentAt(nodes[i], paths[i], ds, [], []);
    CountIffPrefix(ds, paths[i]);
    var d :| d in ds && paths[i] <= d;
    var n :| 0 <= n < |ds| && ds[n] == d;
    PathIsDotless(domains[n]);
    assert forall x :: x in paths[i] ==> x in d;
  }

  // ---- what the nodes show -----------------------------------------------------------------------------------

  /** The first domain that falls under `e` is `e` itself. */
  ghost predicate Leads(domains: seq<string>, e: string) {
    exists n :: 0 <= n < |domains| && domains[n] == e && forall m :: 0 <= m < n ==> !Under(domains[m], e)
  }

  ghost predicate SomeUnder(domains: seq<string>, e: string) {
    exists n :: 0 <= n < |domains| && Under(domains[n], e)
  }

  /** Node `i`, which is not the root, has `e` as its full domain. */
  ghost predicate IsNamed(nodes: seq<Node>, i: int, e: string) {
    0 < i < |nodes| && nodes[i].fullDomain == e
  }

  /** The full domain of a child called `name`. */
  function Extended(nodes: seq<Node>, i: nat, name: string): string
    requires i < |nodes|
  {
    if i == 0 then name else name + "." + nodes[i].fullDomain
  }

  ghost predicate ChildrenFit(nodes: seq<Node>, i: nat)
    requires i < |nodes|
  {
    && NoDuplicates(nodes[i].children)
    && forall c :: c in nodes[i].children ==>
         0 < c < |nodes| && nodes[c].fullDomain == Extended(nodes, i, nodes[c].name) && '.' !in nodes[c].name
  }

  ghost predicate HasParent(nodes: seq<Node>, c: nat) {
    exists i :: 0 <= i < |nodes| && c in nodes[i].children
  }

  ghost predicate NodeFits(node: Node, domains: seq<string>) {
    && node.domainCount == |PlacesUnder(domains, node.fullDomain)|
    && (node.isLeaf <==> Leads(domains, node.fullDomain))
  }

  /** The tree of a list: below the root there is one node for every name that some domain falls under, with the number of
      those domains; a leaf's name is the first of them; a child's name is put before its parent's; and every node is
      some node's child. */
  ghost predicate Shows(nodes: seq<Node>, domains: seq<string>) {
    && |nodes| > 0
    && (forall e :: (exists i :: IsNamed(nodes, i, e)) <==> SomeUnder(domains, e))
    && (forall i, j :: 0 < i < j < |nodes| ==> nodes[i].fullDomain != nodes[j].fullDomain)
    && (forall i :: 0 < i < |nodes| ==> NodeFits(nodes[i], domains))
    && (forall i :: 0 <= i < |nodes| ==> ChildrenFit(nodes, i))
    && (forall c :: 0 < c < |nodes| ==> HasParent(nodes, c))
  }

  lemma NodeIsRight(nodes: seq<Node>, paths: seq<Path>, domains: seq<string>, i: nat)
    requires Represents(nodes, paths, Paths(domains)) && 0 < i < |nodes|
    ensures NodeFits(nodes[i], domains)
  {
    PathOfNode(nodes, paths, domains, i);
    CountIsPlaces(domains, paths[i]);
    LedByIff(Paths(domains), paths[i]);
    LeadsIff(domains, paths[i]);
  }

  lemma PathsInit(domains: seq<string>, n: nat)
    requires n <= |domains|
    ensures Paths(domains)[..n] == Paths(domains[..n])
  {
  }

  lemma NoneBelowIff(domains: seq<string>, p: Path, n: nat)
    requires |p| > 0 && Dotless(p) && n <= |domains|
    ensures Count(Paths(domains)[..n], p) == 0 <==> forall m :: 0 <= m < n ==> !Under(domains[m], Join(Reverse(p)))
  {
    PathsInit(domains, n);
    CountIffPrefix(Paths(domains[..n]), p);
    forall m | 0 <= m < n ensures p <= PathOf(domains[m]) <==> Under(domains[m], Join(Reverse(p))) {
      BelowIffUnder(p, domains[m]);
    }
    if m :| 0 <= m < n && p <= PathOf(domains[m]) {
      assert Paths(domains[..n])[m] == PathOf(domains[m]);
      assert Paths(domains[..n])[m] in Paths(domains[..n]);
    }
  }

  lemma SamePathIffName(p: Path, domain: string)
    requires |p| > 0 && Dotless(p)
    ensures PathOf(domain) == p <==> domain == Join(Reverse(p))
  {
    ReverseTwice(Labels(domain));
    ReverseTwice(p);
    JoinOfLabels(domain);
    ReverseMembers(p);
    LabelsOfJoin(Reverse(p));
  }

  lemma LeadsIff(domains: seq<string>, p: Path)
    requires |p| > 0 && Dotless(p)
    ensures (exists n :: 0 <= n < |Paths(domains)| && Paths(domains)[n] == p && Count(Paths(domains)[..n], p) == 0)
            <==> Leads(domains, Join(Reverse(p)))
  {
    forall n | 0 <= n < |domains|
      ensures Paths(domains)[n] == p <==> domains[n] == Join(Reverse(p))
      ensures Count(Paths(domains)[..n], p) == 0 <==> forall m :: 0 <= m < n ==> !Under(domains[m], Join(Reverse(p)))
    {
      SamePathIffName(p, domains[n]);
      NoneBelowIff(domains, p, n);
    }
  }

  /** Names tell paths apart. */
  lemma SameNameSamePath(p: Path, q: Path)
    requires |p| > 0 && |q| > 0 && Dotless(p) && Dotless(q) && Join(Reverse(p)) == Join(Reverse(q))
    ensures p == q
  {
    ReverseMembers(p);
    ReverseMembers(q);
    LabelsOfJoin(Reverse(p));
    LabelsOfJoin(Reverse(q));
    ReverseTwice(p);
    ReverseTwice(q);
  }

  lemma NodeHasDomain(nodes: seq<Node>, paths: seq<Path>, domains: seq<string>, i: nat)
    requires Represents(nodes, paths, Paths(domains)) && 0 < i < |nodes|
    ensures SomeUnder(domains, nodes[i].fullDomain)
  {
    PathOfNode(nodes, paths, domains, i);
    NoneBelowIff(domains, paths[i], |domains|);
    assert Paths(domains)[..|domains|] == Paths(domains);
  }

  /** The path of a name: its labels from the top down. */
  lemma NameHasPath(e: string)
    ensures Dotless(PathOf(e)) && Join(Reverse(PathOf(e))) == e
  {
    PathIsDotless(e);
    ReverseTwice(Labels(e));
    JoinOfLabels(e);
  }

  lemma DomainHasNode(nodes: seq<Node>, paths: seq<Path>, domains: seq<string>, e: string)
    requires Represents(nodes, paths, Paths(domains)) && SomeUnder(domains, e)
    ensures exists i :: IsNamed(nodes, i, e)
  {
    var p := PathOf(e);
    NameHasPath(e);
    NoneBelowIff(domains, p, |domains|);
    assert Paths(domains)[..|domains|] == Paths(domains);
    assert p in paths;
    var i :| 0 <= i < |paths| && paths[i] == p;
    PathOfNode(nodes, paths, domains, i);
    assert IsNamed(nodes, i, e);
  }

  lemma ChildName(p: Path, name: string)
    ensures Join(Reverse(p + [name])) == if |p| == 0 then name else name + "." + Join(Reverse(p))
  {
    ReverseConcat(p, [name]);
    ReverseOfOne(name);
    if |p| == 0 {
      assert p + [name] == [name];
    } else {
      assert ([name] + Reverse(p))[1..] == Reverse(p);
    }
  }

  lemma ChildrenAreRight(nodes: seq<Node>, paths: seq<Path>, domains: seq<string>, i: nat)
    requires Represents(nodes, paths, Paths(domains)) && i < |nodes|
    ensures ChildrenFit(nodes, i)
  {
    assert ShapeAt(nodes, paths, i);
    forall c | c in nodes[i].children
      ensures 0 < c < |nodes| && nodes[c].fullDomain == Extended(nodes, i, nodes[c].name) && '.' !in nodes[c].name
    {
      ChildPath(nodes, paths, i, c);
      PathOfNode(nodes, paths, domains, c);
      ChildName(paths[i], nodes[c].name);
      assert nodes[c].name in paths[c];
      if i > 0 {
        PathOfNode(nodes, paths, domains, i);
      }
    }
  }

  lemma EveryNodeIsChild(nodes: seq<Node>, paths: seq<Path>, domains: seq<string>, c: nat)
    requires Represents(nodes, paths, Paths(domains)) && 0 < c < |nodes|
    ensures HasParent(nodes, c)
  {
    PathOfNode(nodes, paths, domains, c);
    var p := Parent(paths[c]);
    if |p| == 0 {
      assert IsChild(paths, 0, c) && ShapeAt(nodes, paths, 0);
    } else {
      CountIffPrefix(Paths(domains), paths[c]);
      CountIffPrefix(Paths(domains), p);
      var d :| d in Paths(domains) && paths[c] <= d;
      assert p <= paths[c] <= d;
      var i :| 0 <= i < |paths| && paths[i] == p;
      assert IsChild(paths, i, c) && ShapeAt(nodes, paths, i);
    }
  }

  lemma NamesDiffer(nodes: seq<Node>, paths: seq<Path>, domains: seq<string>, i: nat, j: nat)
    requires Represents(nodes, paths, Paths(domains)) && 0 < i < j < |nodes|
    ensures nodes[i].fullDomain != nodes[j].fullDomain
  {
    PathOfNode(nodes, paths, domains, i);
    PathOfNode(nodes, paths, domains, j);
    if nodes[i].fullDomain == nodes[j].fullDomain {
      SameNameSamePath(paths[i], paths[j]);
    }
  }

  lemma NamesAre(nodes: seq<Node>, paths: seq<Path>, domains: seq<string>, e: string)
    requires Represents(nodes, paths, Paths(domains))
    ensures (exists i :: IsNamed(nodes, i, e)) <==> SomeUnder(domains, e)
  {
    if i :| IsNamed(nodes, i, e) {
      NodeHasDomain(nodes, paths, domains, i);
    }
    if SomeUnder(domains, e) {
      DomainHasNode(nodes, paths, domains, e);
    }
  }

  /** What the service builds shows its list. */
  lemma RepresentedShows(nodes: seq<Node>, paths: seq<Path>, domains: seq<string>)
    requires Represents(nodes, paths, Paths(domains))
    ensures Shows(nodes, domains)
  {
    forall e ensures (exists i :: IsNamed(nodes, i, e)) <==> SomeUnder(domains, e) {
      NamesAre(nodes, paths, domains, e);
    }
    forall i, j | 0 < i < j < |nodes| ensures nodes[i].fullDomain != nodes[j].fullDomain {
      NamesDiffer(nodes, paths, domains, i, j);
    }
    forall i | 0 < i < |nodes| ensures NodeFits(nodes[i], domains) {
      NodeIsRight(nodes, paths, domains, i);
    }
    forall i | 0 <= i < |nodes| ensures ChildrenFit(nodes, i) {
      ChildrenAreRight(nodes, paths, domains, i);
    }
    forall c | 0 < c < |nodes| ensures HasParent(nodes, c) {
      EveryNodeIsChild(nodes, paths, domains, c);
    }
  }
}
