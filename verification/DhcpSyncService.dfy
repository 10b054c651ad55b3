/** The loops of the DHCP sync service and its table of seen leases. */
module DhcpSyncService {
  import opened Options
  import opened Sequences
  import opened Sorting
  import opened ManagedComment
  import opened DhcpSyncModel
  import opened DhcpSyncOwnership
  import opened DhcpSyncDeletes

  // ---- stale deletes -------------------------------------------------------------------------------------------

  /** The delete keys of some planned deletes. */
  ghost function KeysOf(deletions: seq<Planned>): set<(Key, string)> {
    if |deletions| == 0 then {}
    else
      var last := deletions[|deletions| - 1];
      KeysOf(deletions[..|deletions| - 1]) + {(last.item.key, last.item.lease.ip)}
  }

  lemma {:induction false} InKeysOf(deletions: seq<Planned>, c: Item)
    ensures (c.key, c.lease.ip) in KeysOf(deletions) <==> HasDelete(deletions, c)
  {
    if |deletions| > 0 {
      var n := |deletions| - 1;
      InKeysOf(deletions[..n], c);
      assert HasDelete(deletions, c) <==> HasDelete(deletions[..n], c) || SameDelete(deletions[n].item, c) by {
        if p :| p in deletions && SameDelete(p.item, c) {
          assert p in deletions[..n] || p == deletions[n];
        }
      }
    }
  }

  lemma NextKeys(deletions: seq<Planned>, p: Planned)
    ensures KeysOf(deletions + [p]) == KeysOf(deletions) + {(p.item.key, p.item.lease.ip)}
  {
    InitOfAppend(deletions, p);
  }

  lemma NextOwn(before: seq<Item>, own: seq<Item>, j: nat)
    requires j < |own|
    ensures before + own[..j + 1] == (before + own[..j]) + [own[j]]
  {
  }

  /** The records of one row. */
  method PlanRowDeletes(own: seq<Item>, zones: Zones, planned: seq<Planned>, keys: set<(Key, string)>,
                        ghost before: seq<Item>)
    returns (deletions: seq<Planned>, seenDeleteKeys: set<(Key, string)>)
    requires planned == Deletes(before, zones) && keys == KeysOf(planned)
    ensures deletions == Deletes(before + own, zones) && seenDeleteKeys == KeysOf(deletions)
  {
    deletions, seenDeleteKeys := planned, keys;
    Nil(before);
    var j := 0;
    assert own[..0] == [];
    while j < |own|
      invariant 0 <= j <= |own|
      invariant deletions == Deletes(before + own[..j], zones)
      invariant seenDeleteKeys == KeysOf(deletions)
    {
      var c := own[j];
      var existing := Owned(At(zones, c.key), c.lease);
      NextCandidate(before + own[..j], c, zones);
      InKeysOf(deletions, c);
      NextOwn(before, own, j);
      if |existing| == 1 && (c.key, c.lease.ip) !in seenDeleteKeys {
        var p := Planned(DeleteRecord, c, existing[0].value);
        NextKeys(deletions, p);
        seenDeleteKeys := seenDeleteKeys + {(c.key, c.lease.ip)};
        deletions := deletions + [p];
      }
      j := j + 1;
    }
    assert own[..j] == own;
  }

  method PlanStaleDeletes(order: seq<Lease>, rows: Rows, zones: Zones, req: Request, names: Names, desired: set<Key>)
    returns (deletions: seq<Planned>)
    ensures deletions == Deletes(Candidates(order, rows, req, names, desired), zones)
  {
    deletions := [];
    var seenDeleteKeys: set<(Key, string)> := {};
    var i := 0;
    while i < |order|
      invariant 0 <= i <= |order|
      invariant deletions == Deletes(Candidates(order[..i], rows, req, names, desired), zones)
      invariant seenDeleteKeys == KeysOf(deletions)
    {
      ghost var before := Candidates(order[..i], rows, req, names, desired);
      assert order[..i + 1][..i] == order[..i];
      if order[i] in rows {
        var own := StaleItems(order[i], rows[order[i]], req, names, desired);
        deletions, seenDeleteKeys := PlanRowDeletes(own, zones, deletions, seenDeleteKeys, before);
      } else {
        Nil(before);
      }
      i := i + 1;
    }
    assert order[..i] == order;
  }

  // ---- the plan --------------------------------------------------------------------------------------------------

  lemma ItemsSnoc(ds: seq<Desired>, d: Desired, req: Request, names: Names)
    ensures Items(ds + [d], req, names) == Items(ds, req, names) + ItemsOf(d, req, names)
  {
    InitOfAppend(ds, d);
  }

  lemma DiffsConcat(a: seq<Item>, b: seq<Item>, zones: Zones)
    ensures Diffs(a + b, zones) == Diffs(a, zones) + Diffs(b, zones)
  {
  }

  method DesiredKeys(ds: seq<Desired>, req: Request, names: Names) returns (keys: set<Key>)
    ensures keys == Keys(Items(ds, req, names))
  {
    keys := {};
    var i := 0;
    while i < |ds|
      invariant 0 <= i <= |ds| && keys == Keys(Items(ds[..i], req, names))
    {
      var d := ds[i];
      assert ds[..i + 1] == ds[..i] + [d];
      ItemsSnoc(ds[..i], d, req, names);
      keys := keys + {names.forward(d.host, d.zone, d.lease.ip)};
      if req.includeReverse && names.reverse(d.lease.ip).Some? {
        keys := keys + {names.reverse(d.lease.ip).value};
      }
      KeysConcat(Items(ds[..i], req, names), ItemsOf(d, req, names));
      KeysOfOne(d, req, names);
      i := i + 1;
    }
    assert ds[..i] == ds;
  }

  lemma KeysConcat(a: seq<Item>, b: seq<Item>)
    ensures Keys(a + b) == Keys(a) + Keys(b)
  {
    assert forall i :: i in a + b <==> i in a || i in b;
  }

  lemma KeysOfOne(d: Desired, req: Request, names: Names)
    ensures Keys(ItemsOf(d, req, names)) == {names.forward(d.host, d.zone, d.lease.ip)} +
            if req.includeReverse && names.reverse(d.lease.ip).Some? then {names.reverse(d.lease.ip).value} else {}
  {
    var own := ItemsOf(d, req, names);
    assert own[0] in own;
    assert |own| > 1 ==> own[1] in own;
  }

  /** The address and PTR records of every lease against the records found. */
  method PlanDiffs(ds: seq<Desired>, zones: Zones, req: Request, names: Names) returns (planned: seq<Planned>)
    ensures planned == Diffs(Items(ds, req, names), zones)
  {
    planned := [];
    var i := 0;
    while i < |ds|
      invariant 0 <= i <= |ds| && planned == Diffs(Items(ds[..i], req, names), zones)
    {
      var d := ds[i];
      assert ds[..i + 1] == ds[..i] + [d];
      ItemsSnoc(ds[..i], d, req, names);
      DiffsConcat(Items(ds[..i], req, names), ItemsOf(d, req, names), zones);
      var forward := names.forward(d.host, d.zone, d.lease.ip);
      planned := planned + [Diff(At(zones, forward), Item(forward, d.lease, d.host, d.mac, d.lease.ip))];
      if req.includeReverse && names.reverse(d.lease.ip).Some? {
        var reverse := names.reverse(d.lease.ip).value;
        planned := planned + [Diff(At(zones, reverse), Item(reverse, d.lease, d.host, d.mac, d.fqdn))];
      }
      i := i + 1;
    }
    assert ds[..i] == ds;
  }

  /** What plans and marks are sorted by. */
  function OrderText(lease: Lease, host: string, kind: string): string {
    lease.node + "|" + lease.scope + "|" + host + "|" + lease.ip + "|" + kind
  }

  function PlanText(p: Planned): string {
    OrderText(p.item.lease, p.item.host, if p.item.key.rtype == "PTR" then "reverse" else "forward")
  }

  function MarkText(d: Desired): string {
    OrderText(d.lease, d.host, "forward")
  }

  method PlanRecords(ds: seq<Desired>, order: seq<Lease>, rows: Rows, zones: Zones, req: Request, names: Names,
                     leq: (string, string) -> bool)
    returns (plan: seq<Planned>)
    requires TotalOrder(leq)
    ensures multiset(plan) == multiset(Plan(ds, order, rows, zones, req, names)) && SortedBy(plan, By(PlanText, leq))
  {
    var desired := DesiredKeys(ds, req, names);
    var planned := PlanDiffs(ds, zones, req, names);
    var deletions := PlanStaleDeletes(order, rows, zones, req, names, desired);
    ByIsTotal(PlanText, leq);
    plan := Sort(planned + deletions, By(PlanText, leq));
  }

  // ---- the table -------------------------------------------------------------------------------------------------

  lemma MarkSnoc(rows: Rows, ds: seq<Desired>, d: Desired, now: int)
    ensures MarkSeen(rows, ds + [d], now) == MarkSeen(rows, ds, now)[d.lease := Seen(d.host, d.mac, d.zone, now)]
  {
    InitOfAppend(ds, d);
  }

  class SeenLeases {
    var rows: Rows

    constructor ()
      ensures rows == map[]
    {
      rows := map[];
    }

    /** The rows of one scope, in whatever order the database returns them. */
    method ListSeenLeases(node: string, scope: string) returns (order: seq<Lease>)
      ensures NoDuplicates(order)
      ensures forall lease :: lease in order <==> lease in rows && lease.node == node && lease.scope == scope
    {
      order := [];
      var left := rows.Keys;
      while left != {}
        invariant left <= rows.Keys && NoDuplicates(order)
        invariant forall lease ::
          lease in order <==> lease in rows && lease !in left && lease.node == node && lease.scope == scope
        decreases |left|
      {
        var lease :| lease in left;
        if lease.node == node && lease.scope == scope {
          order := order + [lease];
        }
        left := left - {lease};
      }
    }

    method MarkSeen(leases: seq<Desired>, seenAt: int)
      modifies this
      ensures rows == DhcpSyncModel.MarkSeen(old(rows), leases, seenAt)
    {
      var i := 0;
      while i < |leases|
        invariant 0 <= i <= |leases|
        invariant rows == DhcpSyncModel.MarkSeen(old(rows), leases[..i], seenAt)
      {
        assert leases[..i + 1] == leases[..i] + [leases[i]];
        MarkSnoc(old(rows), leases[..i], leases[i], seenAt);
        rows := rows[leases[i].lease := Seen(leases[i].host, leases[i].mac, leases[i].zone, seenAt)];
        i := i + 1;
      }
      assert leases[..i] == leases;
    }

    method RemoveSeen(lease: Lease)
      modifies this
      ensures rows == old(rows) - {lease}
    {
      rows := rows - {lease};
    }
  }

  ghost predicate Removes(plan: seq<Planned>, failed: set<nat>, k: nat, lease: Lease)
    requires k < |plan|
  {
    && Deleted(plan, failed, k) && FirstAt(plan, plan[k].item.key) < |plan|
    && plan[FirstAt(plan, plan[k].item.key)].item.lease == lease
  }

  lemma InRemovedLeases(plan: seq<Planned>, failed: set<nat>)
    ensures forall lease :: lease in RemovedLeases(plan, failed) <==> exists k: nat :: k < |plan| && Removes(plan, failed, k, lease)
  {
    forall lease | lease in RemovedLeases(plan, failed) ensures exists k: nat :: k < |plan| && Removes(plan, failed, k, lease) {
      var k: nat :| k < |plan| && Deleted(plan, failed, k) && FirstAt(plan, plan[k].item.key) < |plan|
                    && plan[FirstAt(plan, plan[k].item.key)].item.lease == lease;
      assert Removes(plan, failed, k, lease);
    }
  }

  lemma AppendDistinct(a: seq<Lease>, b: seq<Lease>)
    requires NoDuplicates(b)
    ensures NoDuplicates(a) && (forall x :: x in b ==> x !in a) ==> NoDuplicates(a + b)
  {
    if NoDuplicates(a) && forall x :: x in b ==> x !in a {
      var s := a + b;
      forall i, j | 0 <= i < j < |s| ensures s[i] != s[j] {
        assert j >= |a| ==> s[j] == b[j - |a|] && s[j] in b;
        assert i >= |a| ==> s[i] == b[i - |a|];
      }
    }
  }

  // ---- apply -------------------------------------------------------------------------------------------------------

  class DhcpDnsSync {
    const table: SeenLeases
    /** The records of the primary node. */
    var zones: Zones

    constructor (table: SeenLeases, zones: Zones)
      ensures this.table == table && this.zones == zones
    {
      this.table, this.zones := table, zones;
    }

    /** The writes in plan order; the n-th fails if `failed` says so. */
    method ApplyRecords(plan: seq<Planned>, failed: set<nat>) returns (ok: seq<bool>)
      modifies this
      ensures zones == Execute(old(zones), plan, failed)
      ensures |ok| == |plan| && forall n :: 0 <= n < |ok| ==> ok[n] == (n !in failed)
    {
      ok := [];
      var n := 0;
      while n < |plan|
        invariant 0 <= n <= |plan| && |ok| == n
        invariant forall k :: 0 <= k < n ==> ok[k] == (k !in failed)
        invariant zones == Execute(old(zones), plan[..n], failed)
      {
        assert plan[..n + 1][..n] == plan[..n];
        if n !in failed {
          var key := plan[n].item.key;
          zones := zones[key := Write(At(zones, key), plan[n])];
        }
        ok := ok + [n !in failed];
        n := n + 1;
      }
      assert plan[..n] == plan;
    }

    /** One row less for every successful delete: that of the first entry of the plan with the delete's key. */
    method ForgetDeleted(plan: seq<Planned>, ok: seq<bool>, ghost failed: set<nat>)
      requires |ok| == |plan| && forall n :: 0 <= n < |ok| ==> ok[n] == (n !in failed)
      modifies table
      ensures table.rows == old(table.rows) - RemovedLeases(plan, failed)
    {
      var n := 0;
      ghost var gone: set<Lease> := {};
      while n < |plan|
        invariant 0 <= n <= |plan| && table.rows == old(table.rows) - gone
        invariant forall lease :: lease in gone <==> exists k: nat :: k < n && Removes(plan, failed, k, lease)
      {
        ghost var before := gone;
        if ok[n] && plan[n].status == DeleteRecord {
          var first := FirstAt(plan, plan[n].item.key);
          if first < |plan| {
            table.RemoveSeen(plan[first].item.lease);
            gone := gone + {plan[first].item.lease};
          }
        }
        forall lease ensures lease in gone <==> lease in before || Removes(plan, failed, n, lease) {
        }
        n := n + 1;
      }
      InRemovedLeases(plan, failed);
      assert gone == RemovedLeases(plan, failed);
    }

    /** The rows of some scopes. */
    method ListRows(scopes: seq<(string, string)>) returns (order: seq<Lease>)
      ensures forall lease :: lease in order <==> lease in table.rows && (lease.node, lease.scope) in scopes
      ensures NoDuplicates(scopes) ==> NoDuplicates(order)
    {
      order := [];
      var n := 0;
      while n < |scopes|
        invariant 0 <= n <= |scopes|
        invariant forall lease :: lease in order <==> lease in table.rows && (lease.node, lease.scope) in scopes[..n]
        invariant NoDuplicates(scopes) ==> NoDuplicates(order)
      {
        var own := table.ListSeenLeases(scopes[n].0, scopes[n].1);
        AppendDistinct(order, own);
        assert scopes[..n + 1] == scopes[..n] + [scopes[n]];
        order := order + own;
        n := n + 1;
      }
      assert scopes[..n] == scopes;
    }

    /** A preview and, unless scopes have errors or the run is a dry one, its execution: one run of the model. */
    method Apply(ds: seq<Desired>, scopes: seq<(string, string)>, req: Request, names: Names, scopeErrors: nat,
                 dryRun: bool, unreadable: set<string>, failed: set<nat>, leq: (string, string) -> bool)
      returns (actions: Option<seq<bool>>, ghost run: Run)
      requires TotalOrder(leq)
      modifies this, table
      ensures actions.None? <==> scopeErrors > 0
      ensures scopeErrors > 0 || dryRun ==> zones == old(zones) && table.rows == old(table.rows)
      ensures run.ds == ds && run.req == req && run.names == names && run.unreadable == unreadable && run.failed == failed
      ensures forall lease :: lease in run.order <==> lease in old(table.rows) && (lease.node, lease.scope) in scopes
      ensures NoDuplicates(scopes) ==> NoDuplicates(run.order)
      ensures Executes(State(old(zones), old(table.rows)), run)
      ensures SortedBy(run.plan, By(PlanText, leq)) && SortedBy(run.marks, By(MarkText, leq))
      ensures scopeErrors == 0 ==> |actions.value| == |run.plan|
      ensures scopeErrors == 0 && !dryRun ==> State(zones, table.rows) == Step(State(old(zones), old(table.rows)), run)
    {
      var order := ListRows(scopes);
      var readable := Readable(zones, unreadable);
      var plan := PlanRecords(ds, order, table.rows, readable, req, names, leq);
      PermutationMembers(plan, Plan(ds, order, table.rows, readable, req, names));
      ByIsTotal(MarkText, leq);
      var marks := Sort(ds, By(MarkText, leq));
      PermutationMembers(marks, ds);
      run := Run(ds, order, req, names, unreadable, plan, marks, failed);
      if scopeErrors > 0 {
        return None, run;
      }
      if dryRun {
        return Some(seq(|plan|, n => true)), run;
      }
      var ok := ApplyRecords(plan, failed);
      table.MarkSeen(marks, req.now);
      ForgetDeleted(plan, ok, failed);
      actions := Some(ok);
    }
  }
}
