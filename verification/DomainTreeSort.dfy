/** `sortTreeNodes`, and the tree that `buildDomainTree` returns. */
module DomainTreeSort {
  import Sorting
  import opened Sequences
  import opened DomainTreeModel
  import opened DomainTree
  import opened DomainTreeBuilder
  import opened DomainTreeMeaning
  import RuleOptimizer

  ghost predicate SortedBy(nodes: seq<Node>, children: seq<nat>, leq: (string, string) -> bool)
    requires Within(children, |nodes|)
  {
    forall a, b :: 0 <= a < b < |children| ==> leq(nodes[children[a]].name, nodes[children[b]].name)
  }

  /** `children.sort((a, b) => a.label.localeCompare(b.label))`. */
  method SortChildren(nodes: seq<Node>, children: seq<nat>, leq: (string, string) -> bool) returns (r: seq<nat>)
    requires Within(children, |nodes|) && Sorting.TotalOrder(leq)
    ensures Within(r, |nodes|) && SortedBy(nodes, r, leq) && multiset(r) == multiset(children)
  {
    var name := (c: nat) => if c < |nodes| then nodes[c].name else "";
    Sorting.ByIsTotal(name, leq);
    r := Sorting.Sort(children, Sorting.By(name, leq));
    Sorting.PermutationMembers(r, children);
    forall k | 0 <= k < |r| ensures r[k] < |nodes| {
      assert r[k] in children;
    }
  }

  ghost predicate SortedFrom(nodes: seq<Node>, paths: seq<Path>, i: nat, leq: (string, string) -> bool)
    requires i < |paths| == |nodes|
  {
    forall j :: 0 <= j < |nodes| && paths[i] <= paths[j] ==> Within(nodes[j].children, |nodes|) && SortedBy(nodes, nodes[j].children, leq)
  }

  /** Only nodes at or below `i` have changed, and only in the order of their children. */
  ghost predicate Reordered(nodes: seq<Node>, r: seq<Node>, paths: seq<Path>, i: nat)
    requires i < |paths| == |nodes|
  {
    && |r| == |nodes|
    && (forall j :: 0 <= j < |nodes| ==> SameButOrder(nodes[j], r[j]))
    && (forall j :: 0 <= j < |nodes| && !(paths[i] <= paths[j]) ==> r[j] == nodes[j])
  }

  lemma ReorderedTwice(a: seq<Node>, b: seq<Node>, c: seq<Node>, paths: seq<Path>, i: nat, k: nat)
    requires i < |paths| == |a| && k < |paths| && paths[i] <= paths[k]
    requires Reordered(a, b, paths, i) && Reordered(b, c, paths, k)
    ensures Reordered(a, c, paths, i)
  {
  }

  /** Sorting below one child leaves another child's part alone. */
  lemma SiblingStaysSorted(nodes: seq<Node>, r: seq<Node>, paths: seq<Path>, c: nat, k: nat,
                           leq: (string, string) -> bool)
    requires c < |paths| == |nodes| && k < |paths| && |paths[c]| == |paths[k]| && paths[c] != paths[k]
    requires Reordered(nodes, r, paths, k) && SortedFrom(nodes, paths, c, leq)
    ensures SortedFrom(r, paths, c, leq)
  {
    forall j | 0 <= j < |r| && paths[c] <= paths[j]
      ensures Within(r[j].children, |r|) && SortedBy(r, r[j].children, leq)
    {
      assert !(paths[k] <= paths[j]);
      forall m | 0 <= m < |r| ensures r[m].name == nodes[m].name {
        assert SameButOrder(nodes[m], r[m]);
      }
    }
  }

  lemma ProperPrefix(a: Path, b: Path)
    requires a <= b && a != b
    ensures |a| < |b|
  {
  }

  /** Every node below `i` is at or below one of its children. */
  lemma BelowAChild(nodes: seq<Node>, paths: seq<Path>, ds: seq<Path>, i: nat, j: nat)
    requires Represents(nodes, paths, ds) && i < |nodes| && j < |nodes| && j != i && paths[i] <= paths[j]
    ensures exists k :: 0 <= k < |nodes[i].children| && nodes[i].children[k] < |nodes| && paths[nodes[i].children[k]] <= paths[j]
  {
    ProperPrefix(paths[i], paths[j]);
    var p := paths[j][..|paths[i]| + 1];
    assert paths[j] in paths;
    CountIffPrefix(ds, paths[j]);
    CountIffPrefix(ds, p);
    var d :| d in ds && paths[j] <= d;
    assert p <= d;
    assert Parent(p) == paths[i];
    ChildByName(nodes, paths, i, p);
    var k :| 0 <= k < |nodes[i].children| && nodes[i].children[k] < |nodes| && nodes[nodes[i].children[k]].name == p[|p| - 1];
    ChildPath(nodes, paths, i, nodes[i].children[k]);
    assert p == paths[i] + [p[|p| - 1]];
  }

  lemma ChildFacts(nodes: seq<Node>, paths: seq<Path>, i: nat, k: nat)
    requires Shape(nodes, paths) && i < |nodes| && k < |nodes[i].children|
    ensures var c := nodes[i].children[k];
            i < c < |nodes| && paths[i] <= paths[c] && !(paths[c] <= paths[i]) && |paths[c]| == |paths[i]| + 1
  {
    ChildPath(nodes, paths, i, nodes[i].children[k]);
  }

  lemma ChildrenDiffer(nodes: seq<Node>, paths: seq<Path>, i: nat, k: nat, m: nat)
    requires Shape(nodes, paths) && i < |nodes| && k < |nodes[i].children| && m < |nodes[i].children| && k != m
    requires nodes[i].children[k] < |nodes| && nodes[i].children[m] < |nodes|
    ensures paths[nodes[i].children[k]] != paths[nodes[i].children[m]]
  {
    assert ShapeAt(nodes, paths, i);
  }

  ghost predicate SortedUpTo(nodes: seq<Node>, paths: seq<Path>, children: seq<nat>, k: nat, leq: (string, string) -> bool)
    requires k <= |children| && Within(children, |nodes|) && |nodes| == |paths|
  {
    forall m :: 0 <= m < k ==> SortedFrom(nodes, paths, children[m], leq)
  }

  /** One more child is sorted; the earlier ones stay so. */
  lemma NextChildSorted(was: seq<Node>, nodes: seq<Node>, r: seq<Node>, paths: seq<Path>, i: nat, k: nat,
                        leq: (string, string) -> bool)
    requires Shape(nodes, paths) && i < |nodes| == |was| && k < |nodes[i].children| && Within(nodes[i].children, |nodes|)
    requires Reordered(was, nodes, paths, i) && Reordered(nodes, r, paths, nodes[i].children[k])
    requires SortedUpTo(nodes, paths, nodes[i].children, k, leq) && SortedFrom(r, paths, nodes[i].children[k], leq)
    ensures Reordered(was, r, paths, i) && r[i].children == nodes[i].children
    ensures SortedUpTo(r, paths, nodes[i].children, k + 1, leq)
  {
    var children := nodes[i].children;
    ChildFacts(nodes, paths, i, k);
    ReorderedTwice(was, nodes, r, paths, i, children[k]);
    forall m | 0 <= m < k ensures SortedFrom(r, paths, children[m], leq) {
      ChildFacts(nodes, paths, i, m);
      ChildrenDiffer(nodes, paths, i, m, k);
      SiblingStaysSorted(nodes, r, paths, children[m], children[k], leq);
    }
  }

  lemma ReplaceChildren(nodes: seq<Node>, paths: seq<Path>, ds: seq<Path>, i: nat, children: seq<nat>)
    requires Represents(nodes, paths, ds) && i < |nodes| && multiset(children) == multiset(nodes[i].children)
    ensures var r := nodes[i := nodes[i].(children := children)]; Represents(r, paths, ds) && Reordered(nodes, r, paths, i)
  {
    ReorderKeeps(nodes, nodes[i := nodes[i].(children := children)], paths, ds);
  }

  method SortTreeNodes(tree: Tree, i: nat, leq: (string, string) -> bool)
    requires tree.Valid() && i < |tree.nodes| && Sorting.TotalOrder(leq)
    modifies tree`nodes
    ensures tree.Valid() && Reordered(old(tree.nodes), tree.nodes, tree.paths, i)
    ensures SortedFrom(tree.nodes, tree.paths, i, leq)
    decreases |tree.nodes| - i
  {
    ghost var was := tree.nodes;
    ChildrenWithin(tree.nodes, tree.paths, i);
    var children := SortChildren(tree.nodes, tree.nodes[i].children, leq);
    ReplaceChildren(tree.nodes, tree.paths, tree.ds, i, children);
    tree.nodes := tree.nodes[i := tree.nodes[i].(children := children)];
    var k := 0;
    while k < |children|
      invariant 0 <= k <= |children| && tree.Valid() && |tree.nodes| == |was| && tree.nodes[i].children == children
      invariant Reordered(was, tree.nodes, tree.paths, i) && SortedUpTo(tree.nodes, tree.paths, children, k, leq)
    {
      ghost var before := tree.nodes;
      ChildFacts(before, tree.paths, i, k);
      SortTreeNodes(tree, children[k], leq);
      NextChildSorted(was, before, tree.nodes, tree.paths, i, k, leq);
      k := k + 1;
    }
    SortedAtAndBelow(was, tree.nodes, tree.paths, tree.ds, i, leq);
  }

  lemma SortedAtAndBelow(was: seq<Node>, nodes: seq<Node>, paths: seq<Path>, ds: seq<Path>, i: nat,
                         leq: (string, string) -> bool)
    requires Represents(nodes, paths, ds) && i < |nodes| == |was| && Reordered(was, nodes, paths, i)
    requires Within(nodes[i].children, |nodes|) && SortedBy(was, nodes[i].children, leq)
    requires SortedUpTo(nodes, paths, nodes[i].children, |nodes[i].children|, leq)
    ensures SortedFrom(nodes, paths, i, leq)
  {
    forall m | 0 <= m < |nodes| ensures was[m].name == nodes[m].name {
      assert SameButOrder(was[m], nodes[m]);
    }
    forall j | 0 <= j < |nodes| && paths[i] <= paths[j]
      ensures Within(nodes[j].children, |nodes|) && SortedBy(nodes, nodes[j].children, leq)
    {
      if j != i {
        BelowAChild(nodes, paths, ds, i, j);
        var k :| 0 <= k < |nodes[i].children| && nodes[i].children[k] < |nodes| && paths[nodes[i].children[k]] <= paths[j];
        assert SortedFrom(nodes, paths, nodes[i].children[k], leq);
      }
    }
  }

  // ---- the tree of a list ------------------------------------------------------------------------------------------

  lemma AnyPath(domains: seq<string>, p: Path)
    ensures (exists d :: d in Paths(domains) && p <= d) <==> exists n :: 0 <= n < |domains| && p <= PathOf(domains[n])
  {
    var ds := Paths(domains);
    if d :| d in ds && p <= d {
      var n :| 0 <= n < |ds| && ds[n] == d;
      assert p <= PathOf(domains[n]);
    }
    if n :| 0 <= n < |domains| && p <= PathOf(domains[n]) {
      assert ds[n] in ds;
    }
  }

  /** A node exists, once, exactly if a domain is at or below its path. */
  lemma NodeExistsIff(nodes: seq<Node>, paths: seq<Path>, domains: seq<string>, p: Path)
    requires Represents(nodes, paths, Paths(domains)) && |p| > 0
    ensures p in paths <==> exists n :: 0 <= n < |domains| && p <= PathOf(domains[n])
    ensures forall i, j :: 0 <= i < |paths| && 0 <= j < |paths| && paths[i] == p && paths[j] == p ==> i == j
  {
    CountIffPrefix(Paths(domains), p);
    AnyPath(domains, p);
  }

  /** Its count is the number of those domains, and it is a leaf exactly if the first of them is the path itself. */
  lemma NodeTellsTheTruth(nodes: seq<Node>, paths: seq<Path>, domains: seq<string>, i: nat)
    requires Represents(nodes, paths, Paths(domains)) && 0 < i < |nodes|
    ensures nodes[i].domainCount == Count(Paths(domains), paths[i]) > 0
    ensures nodes[i].fullDomain == RuleOptimizer.Join(Reverse(paths[i]))
    ensures nodes[i].isLeaf <==>
            exists n :: 0 <= n < |domains| && Paths(domains)[n] == paths[i] && Count(Paths(domains)[..n], paths[i]) == 0
  {
    var ds := Paths(domains);
    assert ContentAt(nodes[i], paths[i], ds, [], []);
    assert paths[i] in paths && ShapeAt(nodes, paths, i);
    LedByIff(ds, paths[i]);
  }

  /** The root counts every domain, and so do its children together. */
  lemma RootCountIsSum(nodes: seq<Node>, paths: seq<Path>, domains: seq<string>)
    requires Represents(nodes, paths, Paths(domains)) && nodes[0].domainCount == |domains|
    ensures Within(nodes[0].children, |nodes|) && nodes[0].domainCount == CountChildren(nodes, nodes[0].children)
  {
    NodeCountIsSum(nodes, paths, Paths(domains), 0);
    AllBelowRoot(Paths(domains));
  }

  /** The children of every node are in order. */
  ghost predicate AllSorted(nodes: seq<Node>, leq: (string, string) -> bool) {
    forall i :: 0 <= i < |nodes| ==> Within(nodes[i].children, |nodes|) && SortedBy(nodes, nodes[i].children, leq)
  }

  method BuildDomainTree(domains: seq<string>, leq: (string, string) -> bool) returns (tree: Tree)
    requires Sorting.TotalOrder(leq)
    ensures fresh(tree) && tree.Valid() && tree.ds == Paths(domains)
    ensures tree.nodes[0].(children := []) == Node("<root>", "", [], false, |domains|)
    ensures Shows(tree.nodes, domains) && AllSorted(tree.nodes, leq)
  {
    tree := new Tree(|domains|);
    var n := 0;
    while n < |domains|
      invariant 0 <= n <= |domains| && fresh(tree) && tree.Valid() && tree.ds == Paths(domains[..n])
      invariant tree.nodes[0].(children := []) == Node("<root>", "", [], false, |domains|)
    {
      tree.AddDomain(domains[n]);
      PathsSnoc(domains, n);
      n := n + 1;
    }
    assert domains[..n] == domains;
    SortTreeNodes(tree, 0, leq);
    RepresentedShows(tree.nodes, tree.paths, domains);
  }
}
