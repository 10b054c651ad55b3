/** The tree object: built domain by domain, then sorted, and what holds of the result. */
module DomainTreeBuilder {
  import opened Options
  import opened Sequences
  import opened DomainTreeModel
  import opened DomainTree
  import RuleOptimizer

  // ---- counts ------------------------------------------------------------------------------------------------

  predicate Within(children: seq<nat>, size: nat) {
    forall k :: 0 <= k < |children| ==> children[k] < size
  }

  function CountChildren(nodes: seq<Node>, children: seq<nat>): nat
    requires Within(children, |nodes|)
  {
    if |children| == 0 then 0
    else CountChildren(nodes, children[..|children| - 1]) + nodes[children[|children| - 1]].domainCount
  }

  ghost function NamesOf(nodes: seq<Node>, children: seq<nat>): (r: seq<string>)
    requires Within(children, |nodes|)
    ensures |r| == |children| && forall k :: 0 <= k < |r| ==> r[k] == nodes[children[k]].name
  {
    seq(|children|, k requires 0 <= k < |children| => nodes[children[k]].name)
  }

  lemma ChildPath(nodes: seq<Node>, paths: seq<Path>, i: nat, c: nat)
    requires Shape(nodes, paths) && i < |nodes| && c in nodes[i].children
    ensures i < c < |nodes| && paths[c] == paths[i] + [nodes[c].name]
  {
    assert ShapeAt(nodes, paths, i);
    assert IsChild(paths, i, c);
    assert ShapeAt(nodes, paths, c);
  }

  lemma ChildNamesDiffer(nodes: seq<Node>, paths: seq<Path>, i: nat, a: nat, b: nat)
    requires Shape(nodes, paths) && i < |nodes| && a in nodes[i].children && b in nodes[i].children && a != b
    requires a < |nodes| && b < |nodes|
    ensures nodes[a].name != nodes[b].name
  {
    ChildPath(nodes, paths, i, a);
    ChildPath(nodes, paths, i, b);
  }

  lemma {:induction false} CountChildrenSums(nodes: seq<Node>, paths: seq<Path>, ds: seq<Path>, i: nat,
                                             children: seq<nat>)
    requires Represents(nodes, paths, ds) && i < |nodes|
    requires Within(children, |nodes|) && forall k :: 0 <= k < |children| ==> children[k] in nodes[i].children
    ensures CountChildren(nodes, children) == SumOver(ds, paths[i], NamesOf(nodes, children))
  {
    if |children| > 0 {
      var n := |children| - 1;
      var c := children[n];
      CountChildrenSums(nodes, paths, ds, i, children[..n]);
      assert NamesOf(nodes, children)[..n] == NamesOf(nodes, children[..n]);
      ChildPath(nodes, paths, i, c);
      assert ContentAt(nodes[c], paths[c], ds, [], []);
    }
  }

  /** The children of a node cover every longer path. */
  lemma NextLabelIsChild(nodes: seq<Node>, paths: seq<Path>, ds: seq<Path>, i: nat, d: Path)
    requires Represents(nodes, paths, ds) && i < |nodes| && d in ds && paths[i] <= d && |paths[i]| < |d|
    ensures exists c :: c in nodes[i].children && c < |nodes| && nodes[c].name == d[|paths[i]|]
  {
    var p := paths[i] + [d[|paths[i]|]];
    assert p <= d;
    CountIffPrefix(ds, p);
    assert p in paths;
    var c :| 0 <= c < |paths| && paths[c] == p;
    assert Parent(p) == paths[i];
    assert IsChild(paths, i, c);
    assert ShapeAt(nodes, paths, i) && ShapeAt(nodes, paths, c);
  }

  /** The domains at or below a node are those that are the node's path plus what its children count. */
  lemma NodeCountIsSum(nodes: seq<Node>, paths: seq<Path>, ds: seq<Path>, i: nat)
    requires Represents(nodes, paths, ds) && i < |nodes|
    ensures Within(nodes[i].children, |nodes|)
    ensures Count(ds, paths[i]) == CountEqual(ds, paths[i]) + CountChildren(nodes, nodes[i].children)
  {
    var children := nodes[i].children;
    assert ShapeAt(nodes, paths, i);
    forall k | 0 <= k < |children| ensures children[k] < |nodes| {
      ChildPath(nodes, paths, i, children[k]);
    }
    var names := NamesOf(nodes, children);
    forall a, b | 0 <= a < b < |names| ensures names[a] != names[b] {
      ChildNamesDiffer(nodes, paths, i, children[a], children[b]);
    }
    forall d | d in ds && paths[i] <= d && |paths[i]| < |d| ensures d[|paths[i]|] in names {
      NextLabelIsChild(nodes, paths, ds, i, d);
      var c :| c in children && c < |nodes| && nodes[c].name == d[|paths[i]|];
      var k :| 0 <= k < |children| && children[k] == c;
      assert names[k] == d[|paths[i]|];
    }
    ChildrenAddUp(ds, paths[i], names);
    CountChildrenSums(nodes, paths, ds, i, children);
  }

  lemma {:induction false} AllBelowRoot(ds: seq<Path>)
    requires forall d :: d in ds ==> |d| > 0
    ensures Count(ds, []) == |ds| && CountEqual(ds, []) == 0
  {
    if |ds| > 0 {
      AllBelowRoot(ds[..|ds| - 1]);
      assert ds[|ds| - 1] in ds;
    }
  }

  // ---- sorting -------------------------------------------------------------------------------------------------

  predicate SameButOrder(a: Node, b: Node) {
    a.(children := []) == b.(children := []) && multiset(a.children) == multiset(b.children)
  }

  lemma SameMembers(s: seq<nat>, t: seq<nat>)
    requires multiset(s) == multiset(t)
    ensures forall x :: x in s <==> x in t
    ensures NoDuplicates(s) ==> NoDuplicates(t)
  {
    forall x ensures x in s <==> x in t {
      assert x in multiset(s) <==> x in s;
      assert x in multiset(t) <==> x in t;
    }
    if NoDuplicates(s) {
      forall i, j | 0 <= i < j < |t| ensures t[i] != t[j] {
        if t[i] == t[j] {
          Twice(t, i, j);
          Once(s, t[i]);
        }
      }
    }
  }

  lemma Twice(t: seq<nat>, i: nat, j: nat)
    requires i < j < |t| && t[i] == t[j]
    ensures multiset(t)[t[i]] >= 2
  {
    assert t == t[..j] + [t[j]] + t[j + 1..];
    assert t[i] in t[..j];
  }

  lemma {:induction false} Once(s: seq<nat>, x: nat)
    requires NoDuplicates(s)
    ensures multiset(s)[x] <= 1
  {
    if |s| > 0 {
      Once(s[..|s| - 1], x);
      assert s == s[..|s| - 1] + [s[|s| - 1]];
      if s[|s| - 1] == x {
        assert x !in s[..|s| - 1];
      }
    }
  }

  /** Reordering the children of any nodes keeps everything but the order. */
  lemma ReorderKeeps(nodes: seq<Node>, r: seq<Node>, paths: seq<Path>, ds: seq<Path>)
    requires Represents(nodes, paths, ds) && |r| == |nodes|
    requires forall j :: 0 <= j < |nodes| ==> SameButOrder(nodes[j], r[j])
    ensures Represents(r, paths, ds)
  {
    forall i: nat | i < |r| ensures ShapeAt(r, paths, i) {
      assert ShapeAt(nodes, paths, i) && SameButOrder(nodes[i], r[i]);
      SameMembers(nodes[i].children, r[i].children);
    }
    forall i | 0 < i < |r| ensures ContentAt(r[i], paths[i], ds, [], []) {
      assert ContentAt(nodes[i], paths[i], ds, [], []) && SameButOrder(nodes[i], r[i]);
    }
  }

  lemma ChildrenWithin(nodes: seq<Node>, paths: seq<Path>, i: nat)
    requires Shape(nodes, paths) && i < |nodes|
    ensures Within(nodes[i].children, |nodes|)
  {
    forall k | 0 <= k < |nodes[i].children| ensures nodes[i].children[k] < |nodes| {
      ChildPath(nodes, paths, i, nodes[i].children[k]);
    }
  }

  // ---- building ------------------------------------------------------------------------------------------------

  lemma ChildByName(nodes: seq<Node>, paths: seq<Path>, i: nat, p: Path)
    requires Shape(nodes, paths) && i < |nodes| && |p| > 0 && Parent(p) == paths[i] && p in paths
    ensures exists k :: 0 <= k < |nodes[i].children| && nodes[i].children[k] < |nodes| && nodes[nodes[i].children[k]].name == p[|p| - 1]
  {
    var c :| 0 <= c < |paths| && paths[c] == p;
    assert IsChild(paths, i, c);
    assert ShapeAt(nodes, paths, i) && ShapeAt(nodes, paths, c);
    var k :| 0 <= k < |nodes[i].children| && nodes[i].children[k] == c;
  }

  lemma JoinOfOne(name: string)
    ensures RuleOptimizer.Join(Reverse([name])) == name
  {
    assert [name][1..] == [];
  }

  function NewChild(labels: Path, i: nat, count: nat): Node
    requires i < |labels|
  {
    Node(labels[i], RuleOptimizer.Join(Reverse(labels[..i + 1])), [], i == |labels| - 1, count)
  }

  lemma BumpNewChild(nodes: seq<Node>, cur: nat, labels: Path, i: nat)
    requires cur < |nodes| && i < |labels|
    ensures var r := Append(nodes, cur, NewChild(labels, i, 0));
            r[|nodes| := Bump(r[|nodes|])] == Append(nodes, cur, NewChild(labels, i, 1))
  {
  }

  lemma FoundPath(nodes: seq<Node>, paths: seq<Path>, cur: nat, c: nat, labels: Path, i: nat)
    requires Shape(nodes, paths) && cur < |nodes| && i < |labels| && paths[cur] == labels[..i]
    requires c in nodes[cur].children && c < |nodes| && nodes[c].name == labels[i]
    ensures c > 0 && paths[c] == labels[..i + 1]
  {
    ChildPath(nodes, paths, cur, c);
    assert labels[..i + 1] == labels[..i] + [labels[i]];
  }

  lemma MissingPath(nodes: seq<Node>, paths: seq<Path>, cur: nat, labels: Path, i: nat)
    requires Shape(nodes, paths) && cur < |nodes| && i < |labels| && paths[cur] == labels[..i]
    requires forall k :: 0 <= k < |nodes[cur].children| && nodes[cur].children[k] < |nodes| ==>
                           nodes[nodes[cur].children[k]].name != labels[i]
    ensures labels[..i + 1] !in paths
  {
    var p := labels[..i + 1];
    assert Parent(p) == labels[..i] && p[|p| - 1] == labels[i];
    if p in paths {
      ChildByName(nodes, paths, cur, p);
    }
  }

  /** `ds` are the paths of the domains entered so far, `paths` those of the nodes. */
  class Tree {
    var nodes: seq<Node>
    ghost var paths: seq<Path>
    ghost var ds: seq<Path>

    ghost predicate Valid()
      reads this
    {
      Represents(nodes, paths, ds)
    }

    constructor (size: nat)
      ensures Valid() && ds == [] && nodes == [Node("<root>", "", [], false, size)]
    {
      nodes := [Node("<root>", "", [], false, size)];
      paths, ds := [[]], [];
    }

    /** `children.find(c => c.label === label)`. */
    method FindChild(i: nat, name: string) returns (found: Option<nat>)
      requires Shape(nodes, paths) && i < |nodes|
      ensures found.Some? ==> found.value in nodes[i].children && found.value < |nodes| && nodes[found.value].name == name
      ensures found.None? ==> forall k :: 0 <= k < |nodes[i].children| && nodes[i].children[k] < |nodes| ==>
                                            nodes[nodes[i].children[k]].name != name
    {
      ChildrenWithin(nodes, paths, i);
      var k := 0;
      while k < |nodes[i].children|
        invariant 0 <= k <= |nodes[i].children|
        invariant forall m :: 0 <= m < k ==> nodes[nodes[i].children[m]].name != name
      {
        if nodes[nodes[i].children[k]].name == name {
          return Some(nodes[i].children[k]);
        }
        k := k + 1;
      }
      return None;
    }

    /** One label of the path: find or create the child, count it, go there. */
    method Descend(cur: nat, labels: Path, i: nat) returns (next: nat)
      requires Shape(nodes, paths) && cur < |nodes| && i < |labels| && paths[cur] == labels[..i]
      requires Contents(nodes, paths, ds, labels, labels[..i])
      modifies this
      ensures ds == old(ds) && Shape(nodes, paths) && Contents(nodes, paths, ds, labels, labels[..i + 1])
      ensures 0 < next < |nodes| && paths[next] == labels[..i + 1]
      ensures nodes[0].(children := []) == old(nodes[0].(children := []))
    {
      var found := FindChild(cur, labels[i]);
      if found.Some? {
        next := found.value;
        FoundPath(nodes, paths, cur, next, labels, i);
        Visit(nodes, paths, ds, labels, i, next);
      } else {
        MissingPath(nodes, paths, cur, labels, i);
        CreateShape(nodes, paths, ds, labels, i, cur, NewChild(labels, i, 1));
        CreateContents(nodes, paths, ds, labels, i, cur, NewChild(labels, i, 1));
        BumpNewChild(nodes, cur, labels, i);
        next := PushChild(cur, labels, i);
        paths := paths + [labels[..i + 1]];
      }
      nodes := nodes[next := Bump(nodes[next])];
    }

    /** A new child object, pushed to its parent's children; its count is still 0. */
    method PushChild(cur: nat, labels: Path, i: nat) returns (next: nat)
      requires cur < |nodes| && i < |labels|
      modifies this`nodes
      ensures next == |old(nodes)| && nodes == Append(old(nodes), cur, NewChild(labels, i, 0))
    {
      var fullDomain := if i == 0 then labels[i] else RuleOptimizer.Join(Reverse(labels[..i + 1]));
      if i == 0 {
        JoinOfOne(labels[i]);
        assert labels[..i + 1] == [labels[i]];
      }
      next := |nodes|;
      nodes := nodes[cur := nodes[cur].(children := nodes[cur].children + [next])];
      nodes := nodes + [Node(labels[i], fullDomain, [], i == |labels| - 1, 0)];
    }

    method AddDomain(domain: string)
      requires Valid()
      modifies this
      ensures Valid() && ds == old(ds) + [PathOf(domain)]
      ensures nodes[0].(children := []) == old(nodes[0].(children := []))
    {
      var labels := PathOf(domain);
      EnterStarts(nodes, paths, ds, labels);
      var cur, i := 0, 0;
      assert labels[..0] == [];
      while i < |labels|
        invariant 0 <= i <= |labels| && Shape(nodes, paths) && cur < |nodes| && paths[cur] == labels[..i]
        invariant Contents(nodes, paths, ds, labels, labels[..i]) && ds == old(ds)
        invariant nodes[0].(children := []) == old(nodes[0].(children := []))
      {
        cur := Descend(cur, labels, i);
        i := i + 1;
      }
      assert labels[..i] == labels;
      EnterEnds(nodes, paths, ds, labels);
      ds := ds + [labels];
    }
  }
}
