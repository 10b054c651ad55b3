/** Nothing but the service's own records is ever changed, and no desired record is deleted. */
module DhcpSyncOwnership {
  import opened Options
  import opened ManagedComment
  import opened DhcpSyncModel

  // ---- the records the service writes ----------------------------------------------------------------------

  function Own(i: Item): Rec {
    Rec(i.value, CommentOf(i))
  }

  ghost predicate OnlyFor(r: Rec, lease: Lease) {
    forall other :: ManagedFor(r, other) <==> other == lease
  }

  /** What the service writes for an item without separators in its fields is managed for its lease and no other. */
  lemma OwnIsOnlyFor(i: Item)
    requires AllPlain(Managed(i.lease.node, i.lease.scope, i.lease.ip, i.host, i.mac))
    ensures OnlyFor(Own(i), i.lease)
  {
    RoundTripIff(Managed(i.lease.node, i.lease.scope, i.lease.ip, i.host, i.mac));
  }

  // ---- one record set --------------------------------------------------------------------------------------

  ghost predicate Distinct(rr: seq<Rec>) {
    forall i, j :: 0 <= i < j < |rr| ==> rr[i].value != rr[j].value
  }

  ghost predicate AllDistinct(zones: Zones) {
    forall k :: Distinct(At(zones, k))
  }

  lemma {:induction false} RemoveDistinct(rr: seq<Rec>, value: string)
    requires Distinct(rr)
    ensures Distinct(Remove(rr, value)) && !Has(Remove(rr, value), value)
  {
    if |rr| > 0 {
      var last := rr[|rr| - 1];
      RemoveDistinct(rr[..|rr| - 1], value);
      var r := Remove(rr[..|rr| - 1], value);
      forall i | 0 <= i < |r| ensures r[i].value != last.value {
        assert r[i] in rr[..|rr| - 1];
      }
    }
  }

  lemma WriteDistinct(rr: seq<Rec>, p: Planned)
    requires Distinct(rr)
    ensures Distinct(Write(rr, p))
  {
    RemoveDistinct(rr, p.current);
  }

  /** The writes to one key. */
  function WriteAt(rr: seq<Rec>, plan: seq<Planned>, key: Key, failed: set<nat>): seq<Rec> {
    if |plan| == 0 then rr
    else
      var n := |plan| - 1;
      var before := WriteAt(rr, plan[..n], key, failed);
      if n in failed || plan[n].item.key != key then before else Write(before, plan[n])
  }

  lemma {:induction false} ExecuteAt(zones: Zones, plan: seq<Planned>, failed: set<nat>, key: Key)
    ensures At(Execute(zones, plan, failed), key) == WriteAt(At(zones, key), plan, key, failed)
  {
    if |plan| > 0 {
      ExecuteAt(zones, plan[..|plan| - 1], failed, key);
      ExecuteAt(zones, plan[..|plan| - 1], failed, plan[|plan| - 1].item.key);
    }
  }

  lemma {:induction false} ExecuteDistinct(zones: Zones, plan: seq<Planned>, failed: set<nat>)
    requires AllDistinct(zones)
    ensures AllDistinct(Execute(zones, plan, failed))
  {
    if |plan| > 0 {
      var n := |plan| - 1;
      ExecuteDistinct(zones, plan[..n], failed);
      var before := Execute(zones, plan[..n], failed);
      WriteDistinct(At(before, plan[n].item.key), plan[n]);
      forall k ensures Distinct(At(Execute(zones, plan, failed), k)) {
        assert Distinct(At(before, k));
      }
    }
  }

  predicate Replaces(p: Planned) {
    p.status == UpdateRecord || p.status == DeleteRecord
  }

  lemma InRemove(rr: seq<Rec>, value: string, r: Rec)
    requires r in rr && r.value != value
    ensures r in Remove(rr, value)
  {
  }

  lemma {:induction false} Survives(rr: seq<Rec>, plan: seq<Planned>, key: Key, failed: set<nat>, r: Rec)
    requires r in rr
    requires forall p :: p in plan && p.item.key == key && Replaces(p) ==> p.current != r.value
    ensures r in WriteAt(rr, plan, key, failed)
  {
    if |plan| > 0 {
      var n := |plan| - 1;
      Survives(rr, plan[..n], key, failed, r);
      var p := plan[n];
      var before := WriteAt(rr, plan[..n], key, failed);
      if p.item.key == key && Replaces(p) {
        InRemove(before, p.current, r);
      }
    }
  }

  // ---- what a plan replaces --------------------------------------------------------------------------------

  /** One run of the service: what it saw and what failed. `order` and `plan` are in whatever order the database and
      the sort leave them. */
  datatype Run = Run(ds: seq<Desired>, order: seq<Lease>, req: Request, names: Names, unreadable: set<string>,
                     plan: seq<Planned>, marks: seq<Desired>, failed: set<nat>)

  function PlanOf(st: State, run: Run): seq<Planned> {
    Plan(run.ds, run.order, st.rows, Readable(st.zones, run.unreadable), run.req, run.names)
  }

  ghost predicate SameElements<T(!new)>(a: seq<T>, b: seq<T>) {
    forall x :: x in a <==> x in b
  }

  ghost predicate Executes(st: State, run: Run) {
    SameElements(run.plan, PlanOf(st, run)) && SameElements(run.marks, run.ds)
  }

  function Step(st: State, run: Run): State {
    Apply(st, run.plan, run.marks, run.req.now, run.failed)
  }

  predicate IsStale(st: State, run: Run, lease: Lease) {
    lease in run.order && lease in st.rows && run.req.now - st.rows[lease].lastSeen >= run.req.graceSeconds * 1000
  }

  lemma {:induction false} CandidateIsStale(order: seq<Lease>, rows: Rows, req: Request, names: Names,
                                            desired: set<Key>, c: Item)
    requires c in Candidates(order, rows, req, names, desired)
    ensures c.lease in order && c.lease in rows && c in StaleItems(c.lease, rows[c.lease], req, names, desired)
    ensures c.key !in desired
  {
    var n := |order| - 1;
    if c in Candidates(order[..n], rows, req, names, desired) {
      CandidateIsStale(order[..n], rows, req, names, desired, c);
    }
  }

  lemma {:induction false} DeleteIsOwned(cs: seq<Item>, zones: Zones, p: Planned)
    requires p in Deletes(cs, zones)
    ensures p.item in cs && Matches(zones, p.item)
    ensures p == DeleteOf(zones, p.item)
  {
    var n := |cs| - 1;
    if p in Deletes(cs[..n], zones) {
      DeleteIsOwned(cs[..n], zones, p);
    }
  }

  ghost predicate Replaced(zones: Zones, p: Planned, r: Rec) {
    r in At(zones, p.item.key) && r.value == p.current && ManagedFor(r, p.item.lease)
  }

  lemma UpdateReplaces(items: seq<Item>, zones: Zones, p: Planned) returns (r: Rec)
    requires p in Diffs(items, zones) && Replaces(p)
    ensures Replaced(zones, p, r) && p.status == UpdateRecord && p.item in items
  {
    var n :| 0 <= n < |items| && p == Diffs(items, zones)[n];
    r := At(zones, p.item.key)[0];
  }

  lemma DeleteReplaces(cs: seq<Item>, zones: Zones, p: Planned) returns (r: Rec)
    requires p in Deletes(cs, zones)
    ensures Replaced(zones, p, r) && p.status == DeleteRecord && p.item in cs
  {
    DeleteIsOwned(cs, zones, p);
    var owned := Owned(At(zones, p.item.key), p.item.lease);
    r := owned[0];
    assert r in owned;
  }

  /** Every entry of a plan that replaces a record names one of the set, and that one is managed for the entry's lease. */
  lemma PlannedIsOwned(st: State, run: Run, zones: Zones, p: Planned) returns (r: Rec)
    requires p in Plan(run.ds, run.order, st.rows, zones, run.req, run.names) && Replaces(p)
    ensures Replaced(zones, p, r) && Justified(st, run, p)
  {
    var items := Items(run.ds, run.req, run.names);
    var cs := Candidates(run.order, st.rows, run.req, run.names, Keys(items));
    if p in Diffs(items, zones) {
      r := UpdateReplaces(items, zones, p);
    } else {
      r := DeleteReplaces(cs, zones, p);
      CandidateIsStale(run.order, st.rows, run.req, run.names, Keys(items), p.item);
    }
  }

  /** An update is for a live lease, a delete for a stale row whose key nobody desires. */
  predicate Justified(st: State, run: Run, p: Planned) {
    var items := Items(run.ds, run.req, run.names);
    if p.status == UpdateRecord then p.item in items
    else p.status == DeleteRecord && p.item.key !in Keys(items) && IsStale(st, run, p.item.lease)
  }

  lemma SameValueSameRecord(rr: seq<Rec>, a: Rec, b: Rec)
    requires Distinct(rr) && a in rr && b in rr && a.value == b.value
    ensures a == b
  {
  }

  lemma ReadableAt(zones: Zones, unreadable: set<string>, key: Key)
    ensures At(Readable(zones, unreadable), key) == if key.zone in unreadable then [] else At(zones, key)
  {
  }

  /** If a run changed or deleted a record, then the plan says so, with a reason, for a lease that the record's comment
      names. */
  lemma OnlyOwnRecordsChange(st: State, run: Run, key: Key, r: Rec) returns (p: Planned)
    requires Distinct(At(st.zones, key)) && Executes(st, run)
    requires r in At(st.zones, key) && r !in At(Step(st, run).zones, key)
    ensures p in run.plan && p.item.key == key && p.current == r.value && ManagedFor(r, p.item.lease) && Justified(st, run, p)
  {
    ExecuteAt(st.zones, run.plan, run.failed, key);
    if forall p :: p in run.plan && p.item.key == key && Replaces(p) ==> p.current != r.value {
      Survives(At(st.zones, key), run.plan, key, run.failed, r);
    }
    p :| p in run.plan && p.item.key == key && Replaces(p) && p.current == r.value;
    assert p in PlanOf(st, run);
    var q := PlannedIsOwned(st, run, Readable(st.zones, run.unreadable), p);
    ReadableAt(st.zones, run.unreadable, key);
    SameValueSameRecord(At(st.zones, key), q, r);
  }

  // ---- whole runs --------------------------------------------------------------------------------------------

  ghost predicate ExecutesAll(st: State, runs: seq<Run>)
    decreases |runs|
  {
    |runs| > 0 ==> Executes(st, runs[0]) && ExecutesAll(Step(st, runs[0]), runs[1..])
  }

  function StepAll(st: State, runs: seq<Run>): State
    decreases |runs|
  {
    if |runs| == 0 then st else StepAll(Step(st, runs[0]), runs[1..])
  }

  /** The lease is live or has a listed row in one of the runs. */
  predicate Selects(run: Run, lease: Lease) {
    lease in run.order || exists d :: d in run.ds && d.lease == lease
  }

  lemma {:induction false} ItemLease(ds: seq<Desired>, req: Request, names: Names, i: Item)
    requires i in Items(ds, req, names)
    ensures exists d :: d in ds && d.lease == i.lease
  {
  }

  /** No sequence of runs, with whatever failures, changes or deletes a record whose comment does not name a lease that
      one of them selected: neither foreign records nor those of other nodes, scopes or addresses. */
  lemma {:induction false} RunsKeepOthersRecords(st: State, runs: seq<Run>, key: Key, r: Rec)
    requires AllDistinct(st.zones) && ExecutesAll(st, runs)
    requires r in At(st.zones, key)
    requires forall run, lease :: run in runs && Selects(run, lease) ==> !ManagedFor(r, lease)
    ensures r in At(StepAll(st, runs).zones, key)
    decreases |runs|
  {
    if |runs| > 0 {
      var next := Step(st, runs[0]);
      ExecuteDistinct(st.zones, runs[0].plan, runs[0].failed);
      assert Distinct(At(st.zones, key));
      if r !in At(next.zones, key) {
        var p := OnlyOwnRecordsChange(st, runs[0], key, r);
        if p.status == UpdateRecord {
          ItemLease(runs[0].ds, runs[0].req, runs[0].names, p.item);
        }
        assert Selects(runs[0], p.item.lease);
        assert false;
      }
      RunsKeepOthersRecords(next, runs[1..], key, r);
    }
  }
}
