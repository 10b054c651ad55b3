/** `buildDomainTree` and `sortTreeNodes`. Node objects live in one sequence and are named by their position in it, so an
    update in place is the update of one slot. */
module DomainTree {
  import opened Options
  import opened Sequences
  import opened DomainTreeModel
  import RuleOptimizer

  datatype Node = Node(name: string, fullDomain: string, children: seq<nat>, isLeaf: bool, domainCount: nat)

  // ---- the shape ---------------------------------------------------------------------------------------------

  function Parent(p: Path): Path {
    if |p| == 0 then [] else p[..|p| - 1]
  }

  ghost predicate IsChild(paths: seq<Path>, i: nat, c: nat)
    requires i < |paths|
  {
    c < |paths| && |paths[c]| > 0 && Parent(paths[c]) == paths[i]
  }

  ghost predicate ShapeAt(nodes: seq<Node>, paths: seq<Path>, i: nat)
    requires i < |nodes| == |paths|
  {
    && NoDuplicates(nodes[i].children)
    && (forall c: nat :: c in nodes[i].children <==> IsChild(paths, i, c))
    && (forall c :: c in nodes[i].children ==> c > i)
    && (i > 0 ==> |paths[i]| > 0 && nodes[i].name == paths[i][|paths[i]| - 1]
                  && nodes[i].fullDomain == RuleOptimizer.Join(Reverse(paths[i])))
  }

  /** Node 0 is the root, no two nodes have the same path, children are exactly the paths one label longer. */
  ghost predicate Shape(nodes: seq<Node>, paths: seq<Path>) {
    && |nodes| == |paths| > 0 && paths[0] == []
    && NoDuplicates(paths)
    && (forall i: nat :: i < |nodes| ==> ShapeAt(nodes, paths, i))
  }

  // ---- the contents ------------------------------------------------------------------------------------------

  /** While `d` is being entered down to `upTo`, a prefix of `d`. */
  predicate Passed(upTo: Path, p: Path) {
    |p| > 0 && p <= upTo
  }

  ghost predicate ContentAt(node: Node, p: Path, ds: seq<Path>, d: Path, upTo: Path) {
    && node.domainCount == Count(ds, p) + (if Passed(upTo, p) then 1 else 0)
    && node.isLeaf == (if Count(ds, p) > 0 then LedBy(ds, p) else p == d)
  }

  ghost predicate Contents(nodes: seq<Node>, paths: seq<Path>, ds: seq<Path>, d: Path, upTo: Path)
    requires |nodes| == |paths|
  {
    && (forall p :: |p| > 0 ==> (p in paths <==> Count(ds, p) > 0 || Passed(upTo, p)))
    && (forall i :: 0 < i < |nodes| ==> ContentAt(nodes[i], paths[i], ds, d, upTo))
  }

  /** Between two domains. */
  ghost predicate Represents(nodes: seq<Node>, paths: seq<Path>, ds: seq<Path>) {
    Shape(nodes, paths) && Contents(nodes, paths, ds, [], [])
  }

  lemma EnterStarts(nodes: seq<Node>, paths: seq<Path>, ds: seq<Path>, d: Path)
    requires Represents(nodes, paths, ds)
    ensures Contents(nodes, paths, ds, d, [])
  {
    forall i | 0 < i < |nodes| ensures ContentAt(nodes[i], paths[i], ds, d, []) {
      assert ContentAt(nodes[i], paths[i], ds, [], []);
      assert |paths[i]| > 0 by {
        assert ShapeAt(nodes, paths, i);
      }
      assert paths[i] in paths;
    }
  }

  lemma EnterEnds(nodes: seq<Node>, paths: seq<Path>, ds: seq<Path>, d: Path)
    requires Shape(nodes, paths) && Contents(nodes, paths, ds, d, d)
    ensures Represents(nodes, paths, ds + [d])
  {
    forall p: Path ensures Count(ds + [d], p) == Count(ds, p) + (if p <= d then 1 else 0) {
      CountSnoc(ds, d, p);
    }
    forall i | 0 < i < |nodes| ensures ContentAt(nodes[i], paths[i], ds + [d], [], []) {
      assert ContentAt(nodes[i], paths[i], ds, d, d);
      assert |paths[i]| > 0 && paths[i] in paths by {
        assert ShapeAt(nodes, paths, i);
      }
      CountSnoc(ds, d, paths[i]);
    }
  }

  // ---- one label further -------------------------------------------------------------------------------------

  lemma OneFurther(d: Path, k: nat, p: Path)
    requires k < |d|
    ensures Passed(d[..k + 1], p) <==> Passed(d[..k], p) || p == d[..k + 1]
  {
    if Passed(d[..k + 1], p) && |p| <= k {
      assert d[..k + 1][..|p|] == d[..|p|] == d[..k][..|p|];
    }
    if Passed(d[..k], p) {
      assert d[..k + 1][..|p|] == d[..|p|] == d[..k][..|p|];
    }
  }

  function Bump(n: Node): Node {
    n.(domainCount := n.domainCount + 1)
  }

  /** The child exists: it is counted once more. */
  lemma Visit(nodes: seq<Node>, paths: seq<Path>, ds: seq<Path>, d: Path, k: nat, c: nat)
    requires Shape(nodes, paths) && k < |d| && Contents(nodes, paths, ds, d, d[..k])
    requires 0 < c < |nodes| && paths[c] == d[..k + 1]
    ensures var r := nodes[c := Bump(nodes[c])]; Shape(r, paths) && Contents(r, paths, ds, d, d[..k + 1])
  {
    var r := nodes[c := Bump(nodes[c])];
    forall i: nat | i < |r| ensures ShapeAt(r, paths, i) {
      assert ShapeAt(nodes, paths, i);
    }
    forall p: Path | |p| > 0 ensures p in paths <==> Count(ds, p) > 0 || Passed(d[..k + 1], p) {
      OneFurther(d, k, p);
      assert paths[c] in paths;
    }
    forall i | 0 < i < |r| ensures ContentAt(r[i], paths[i], ds, d, d[..k + 1]) {
      assert ContentAt(nodes[i], paths[i], ds, d, d[..k]);
      OneFurther(d, k, paths[i]);
      assert i != c ==> paths[i] != paths[c];
    }
  }

  function Append(nodes: seq<Node>, cur: nat, child: Node): (r: seq<Node>)
    requires cur < |nodes|
    ensures |r| == |nodes| + 1 && r[|nodes|] == child
    ensures forall i :: 0 <= i < |nodes| ==>
      r[i] == if i == cur then nodes[i].(children := nodes[i].children + [|nodes|]) else nodes[i]
  {
    nodes[cur := nodes[cur].(children := nodes[cur].children + [|nodes|])] + [child]
  }

  lemma IsChildAppend(paths: seq<Path>, p: Path, i: nat, c: nat)
    requires i < |paths|
    ensures IsChild(paths + [p], i, c) <==>
            (c < |paths| && IsChild(paths, i, c)) || (c == |paths| && |p| > 0 && Parent(p) == paths[i])
  {
  }

  lemma IsChildAppendLast(paths: seq<Path>, p: Path, c: nat)
    requires |p| > 0 && forall j :: 0 <= j < |paths| ==> !(p <= paths[j])
    ensures !IsChild(paths + [p], |paths|, c)
  {
    if c < |paths| && |paths[c]| > 0 {
      assert Parent(paths[c]) <= paths[c];
    }
  }

  lemma NoDuplicatesAppend<T>(s: seq<T>, x: T)
    requires NoDuplicates(s) && x !in s
    ensures NoDuplicates(s + [x])
  {
  }

  lemma AppendShapeOld(nodes: seq<Node>, paths: seq<Path>, cur: nat, p: Path, child: Node, i: nat)
    requires Shape(nodes, paths) && cur < |nodes| && |p| > 0 && Parent(p) == paths[cur] && i < |nodes|
    ensures ShapeAt(Append(nodes, cur, child), paths + [p], i)
  {
    var r := Append(nodes, cur, child);
    assert ShapeAt(nodes, paths, i);
    assert !IsChild(paths, i, |paths|);
    NoDuplicatesAppend(nodes[i].children, |nodes|);
    forall c: nat ensures c in r[i].children <==> IsChild(paths + [p], i, c) {
      IsChildAppend(paths, p, i, c);
    }
  }

  lemma AppendShapeNew(nodes: seq<Node>, paths: seq<Path>, cur: nat, p: Path, child: Node)
    requires |nodes| == |paths| && cur < |nodes| && |p| > 0
    requires child.name == p[|p| - 1] && child.fullDomain == RuleOptimizer.Join(Reverse(p)) && child.children == []
    requires forall j :: 0 <= j < |paths| ==> !(p <= paths[j])
    ensures ShapeAt(Append(nodes, cur, child), paths + [p], |nodes|)
  {
    forall c: nat ensures !IsChild(paths + [p], |nodes|, c) {
      IsChildAppendLast(paths, p, c);
    }
  }

  lemma AppendShape(nodes: seq<Node>, paths: seq<Path>, cur: nat, p: Path, child: Node)
    requires Shape(nodes, paths) && cur < |nodes| && |p| > 0 && Parent(p) == paths[cur]
    requires child.name == p[|p| - 1] && child.fullDomain == RuleOptimizer.Join(Reverse(p)) && child.children == []
    requires p !in paths && forall j :: 0 <= j < |paths| ==> !(p <= paths[j])
    ensures Shape(Append(nodes, cur, child), paths + [p])
  {
    var r, rp := Append(nodes, cur, child), paths + [p];
    NoDuplicatesAppend(paths, p);
    forall i: nat | i < |r| ensures ShapeAt(r, rp, i) {
      if i < |nodes| {
        AppendShapeOld(nodes, paths, cur, p, child, i);
      } else {
        AppendShapeNew(nodes, paths, cur, p, child);
      }
    }
  }

  lemma NewPath(paths: seq<Path>, ds: seq<Path>, d: Path, k: nat, q: Path)
    requires k < |d| && (forall p :: |p| > 0 ==> (p in paths <==> Count(ds, p) > 0 || Passed(d[..k], p)))
    requires |q| > 0
    ensures q in paths + [d[..k + 1]] <==> Count(ds, q) > 0 || Passed(d[..k + 1], q)
  {
    OneFurther(d, k, q);
    InAppend(paths, d[..k + 1], q);
  }

  lemma OldContent(node: Node, ds: seq<Path>, d: Path, k: nat, p: Path, children: seq<nat>)
    requires k < |d| && ContentAt(node, p, ds, d, d[..k]) && p != d[..k + 1]
    ensures ContentAt(node.(children := children), p, ds, d, d[..k + 1])
  {
    OneFurther(d, k, p);
  }

  predicate IsNewChild(child: Node, d: Path, k: nat)
    requires k < |d|
  {
    child == Node(d[k], RuleOptimizer.Join(Reverse(d[..k + 1])), [], k == |d| - 1, 1)
  }

  lemma CreateShape(nodes: seq<Node>, paths: seq<Path>, ds: seq<Path>, d: Path, k: nat, cur: nat, child: Node)
    requires Shape(nodes, paths) && k < |d| && Contents(nodes, paths, ds, d, d[..k])
    requires cur < |nodes| && paths[cur] == d[..k] && d[..k + 1] !in paths && IsNewChild(child, d, k)
    ensures Shape(Append(nodes, cur, child), paths + [d[..k + 1]])
  {
    var p := d[..k + 1];
    forall j | 0 <= j < |paths| ensures !(p <= paths[j]) {
      assert paths[j] in paths;
      if p <= paths[j] {
        LongerIsThere(paths, ds, d, k, paths[j]);
      }
    }
    assert Parent(p) == d[..k] && p[|p| - 1] == d[k];
    AppendShape(nodes, paths, cur, p, child);
  }

  lemma CreateContents(nodes: seq<Node>, paths: seq<Path>, ds: seq<Path>, d: Path, k: nat, cur: nat, child: Node)
    requires |nodes| == |paths| > 0 && k < |d| && Contents(nodes, paths, ds, d, d[..k])
    requires cur < |nodes| && d[..k + 1] !in paths && IsNewChild(child, d, k)
    ensures Contents(Append(nodes, cur, child), paths + [d[..k + 1]], ds, d, d[..k + 1])
  {
    var r, p := Append(nodes, cur, child), d[..k + 1];
    forall q: Path | |q| > 0 ensures q in paths + [p] <==> Count(ds, q) > 0 || Passed(p, q) {
      NewPath(paths, ds, d, k, q);
    }
    forall i | 0 < i < |r| ensures ContentAt(r[i], (paths + [p])[i], ds, d, p) {
      if i < |nodes| {
        assert ContentAt(nodes[i], paths[i], ds, d, d[..k]);
        assert paths[i] in paths;
        OldContent(nodes[i], ds, d, k, paths[i], r[i].children);
      } else {
        assert k == |d| - 1 ==> p == d;
        assert Count(ds, p) == 0;
      }
    }
  }

  /** The paths present are closed under prefixes. */
  lemma LongerIsThere(paths: seq<Path>, ds: seq<Path>, d: Path, k: nat, q: Path)
    requires k < |d| && forall p :: |p| > 0 ==> (p in paths <==> Count(ds, p) > 0 || Passed(d[..k], p))
    requires q in paths && d[..k + 1] <= q
    ensures d[..k + 1] in paths
  {
    CountIffPrefix(ds, q);
    CountIffPrefix(ds, d[..k + 1]);
    if e :| e in ds && q <= e {
      assert e[..k + 1] == q[..k + 1] == d[..k + 1];
    }
  }
}
