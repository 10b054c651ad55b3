/** The preview right after an apply, and what becomes of the stored rows. */
module DhcpSyncTheorems {
  import opened Options
  import opened ManagedComment
  import opened Sequences
  import opened DhcpSyncModel
  import opened DhcpSyncOwnership
  import opened DhcpSyncConvergence
  import opened DhcpSyncDeletes

  function ItemsOfRun(run: Run): seq<Item> {
    Items(run.ds, run.req, run.names)
  }

  function CandidatesOf(st: State, run: Run): seq<Item> {
    Candidates(run.order, st.rows, run.req, run.names, Keys(ItemsOfRun(run)))
  }

  /** Every read and every write of the run succeeds. */
  ghost predicate Succeeds(st: State, run: Run) {
    Executes(st, run) && run.unreadable == {} && run.failed == {}
  }

  // ---- the plan, key by key ----------------------------------------------------------------------------------

  lemma AllReadable(zones: Zones)
    ensures Readable(zones, {}) == zones
  {
  }

  lemma PlanParts(st: State, run: Run, p: Planned)
    requires Succeeds(st, run)
    ensures p in run.plan <==> p in Diffs(ItemsOfRun(run), st.zones) || p in Deletes(CandidatesOf(st, run), st.zones)
  {
    AllReadable(st.zones);
    assert p in run.plan <==> p in PlanOf(st, run);
  }

  lemma DiffsIff(items: seq<Item>, zones: Zones, p: Planned)
    ensures p in Diffs(items, zones) <==> p.item in items && p == Diff(At(zones, p.item.key), p.item)
  {
    if p.item in items {
      var n :| 0 <= n < |items| && items[n] == p.item;
      assert Diffs(items, zones)[n] == Diff(At(zones, p.item.key), p.item);
    }
  }

  lemma CandidateIsUndesired(st: State, run: Run, c: Item)
    requires c in CandidatesOf(st, run)
    ensures c.key !in Keys(ItemsOfRun(run))
  {
    CandidateIsStale(run.order, st.rows, run.req, run.names, Keys(ItemsOfRun(run)), c);
  }

  lemma DesiredKeysAreDiffed(st: State, run: Run)
    requires Succeeds(st, run)
    ensures PlansAllDiffs(run.plan, ItemsOfRun(run), st.zones)
  {
    var items := ItemsOfRun(run);
    forall i | i in items ensures PlansDiffs(run.plan, i.key, items, At(st.zones, i.key)) {
      forall p | p in run.plan && p.item.key == i.key ensures p.item in items && p == Diff(At(st.zones, i.key), p.item) {
        PlanParts(st, run, p);
        DiffsIff(items, st.zones, p);
        if p in Deletes(CandidatesOf(st, run), st.zones) {
          DeleteIsOwned(CandidatesOf(st, run), st.zones, p);
          CandidateIsUndesired(st, run, p.item);
        }
      }
      forall j | j in items && j.key == i.key ensures Diff(At(st.zones, i.key), j) in run.plan {
        PlanParts(st, run, Diff(At(st.zones, i.key), j));
        DiffsIff(items, st.zones, Diff(At(st.zones, i.key), j));
      }
    }
  }

  lemma UndesiredKeysAreDeleted(st: State, run: Run, c: Item)
    requires Succeeds(st, run) && c in CandidatesOf(st, run)
    ensures OnlyDeletes(run.plan, c.key, CandidatesOf(st, run), st.zones)
  {
    CandidateIsUndesired(st, run, c);
    var items := ItemsOfRun(run);
    forall p | p in run.plan && p.item.key == c.key ensures p in Deletes(CandidatesOf(st, run), st.zones) {
      PlanParts(st, run, p);
      DiffsIff(items, st.zones, p);
    }
  }

  // ---- the rows afterwards -------------------------------------------------------------------------------------

  ghost predicate Marks(d: Desired, lease: Lease, row: Seen, now: int) {
    d.lease == lease && row == Seen(d.host, d.mac, d.zone, now)
  }

  /** A row is the mark of a live lease, or was there before. */
  lemma {:induction false} RowAfterMark(rows: Rows, marks: seq<Desired>, now: int, lease: Lease)
    requires lease in MarkSeen(rows, marks, now)
    ensures var row := MarkSeen(rows, marks, now)[lease];
            (exists d :: d in marks && Marks(d, lease, row, now)) || (lease in rows && row == rows[lease])
  {
    if |marks| > 0 {
      var d := marks[|marks| - 1];
      if d.lease == lease {
        assert Marks(d, lease, MarkSeen(rows, marks, now)[lease], now);
      } else {
        RowAfterMark(rows, marks[..|marks| - 1], now, lease);
      }
    }
  }

  /** The row of a live lease leaves no candidate: its names are the desired ones. */
  lemma LiveRowIsDesired(d: Desired, ds: seq<Desired>, req: Request, names: Names, row: Seen)
    requires d in ds && Marks(d, d.lease, row, req.now)
    ensures StaleItems(d.lease, row, req, names, Keys(Items(ds, req, names))) == []
  {
    var own := ItemsOf(d, req, names);
    assert forall i :: i in own ==> i in Items(ds, req, names);
    assert own[0] in own && own[0].key in Keys(Items(ds, req, names));
    if req.includeReverse && names.reverse(d.lease.ip).Some? {
      assert own[1] in own && own[1].key in Keys(Items(ds, req, names));
    }
  }

  lemma {:induction false} StaleItemIsCandidate(order: seq<Lease>, rows: Rows, req: Request, names: Names,
                                                desired: set<Key>,
                                                lease: Lease, c: Item)
    requires lease in order && lease in rows && c in StaleItems(lease, rows[lease], req, names, desired)
    ensures c in Candidates(order, rows, req, names, desired)
  {
    var n := |order| - 1;
    if lease != order[n] {
      assert lease in order[..n];
      StaleItemIsCandidate(order[..n], rows, req, names, desired, lease, c);
    }
  }

  /** `order'` lists rows of the same scopes later: nothing but old rows and live leases. */
  ghost predicate ListsLater(run: Run, order': seq<Lease>) {
    forall lease :: lease in order' ==> lease in run.order || exists d :: d in run.ds && d.lease == lease
  }

  lemma CandidateWasOne(st: State, run: Run, order': seq<Lease>, c: Item)
    requires Executes(st, run) && ListsLater(run, order')
    requires c in Candidates(order', Step(st, run).rows, run.req, run.names, Keys(ItemsOfRun(run)))
    ensures c in CandidatesOf(st, run)
  {
    var desired := Keys(ItemsOfRun(run));
    var rows := Step(st, run).rows;
    CandidateIsStale(order', rows, run.req, run.names, desired, c);
    var lease := c.lease;
    if exists d :: d in run.marks && d.lease == lease {
      LiveLeaseIsMarked(st.rows, run.marks, run.req.now, lease);
      var d :| d in run.marks && Marks(d, lease, rows[lease], run.req.now);
      LiveRowIsDesired(d, run.ds, run.req, run.names, rows[lease]);
    } else {
      RowAfterMark(st.rows, run.marks, run.req.now, lease);
      StaleItemIsCandidate(run.order, st.rows, run.req, run.names, desired, lease, c);
    }
  }

  lemma {:induction false} LiveLeaseIsMarked(rows: Rows, marks: seq<Desired>, now: int, lease: Lease)
    requires exists d :: d in marks && d.lease == lease
    ensures lease in MarkSeen(rows, marks, now)
    ensures exists d :: d in marks && Marks(d, lease, MarkSeen(rows, marks, now)[lease], now)
  {
    var n := |marks| - 1;
    if marks[n].lease == lease {
      assert Marks(marks[n], lease, MarkSeen(rows, marks, now)[lease], now);
    } else {
      var d :| d in marks && d.lease == lease;
      assert d in marks[..n];
      LiveLeaseIsMarked(rows, marks[..n], now, lease);
    }
  }

  // ---- the preview after the apply -----------------------------------------------------------------------------

  /** No matching candidate lost its delete to another one with the same owner and ip. */
  ghost predicate NoneSuppressed(st: State, run: Run) {
    var cs := CandidatesOf(st, run);
    forall n :: 0 <= n < |cs| && Matches(st.zones, cs[n]) ==> !Suppressed(cs, st.zones, n)
  }

  function PlanAfter(st: State, run: Run, order': seq<Lease>): seq<Planned> {
    var st' := Step(st, run);
    Plan(run.ds, order', st'.rows, st'.zones, run.req, run.names)
  }

  ghost predicate PlansMutation(plan: seq<Planned>) {
    exists p :: p in plan && Mutates(p)
  }

  lemma MutationIff(items: seq<Item>, cs: seq<Item>, zones: Zones)
    ensures PlansMutation(Diffs(items, zones) + Deletes(cs, zones)) <==> Unsettled(items, zones)
  {
    var plan := Diffs(items, zones) + Deletes(cs, zones);
    if i :| i in items && Mutates(Diff(At(zones, i.key), i)) {
      DiffsIff(items, zones, Diff(At(zones, i.key), i));
      assert Diff(At(zones, i.key), i) in plan;
    }
    if p :| p in plan && Mutates(p) {
      MutationIsDiff(items, cs, zones, p);
    }
  }

  /** With the same leases at the same time, the preview after a successful apply plans a create or an update exactly if
      two items contradict each other. */
  lemma ConvergesIff(st: State, run: Run, order': seq<Lease>)
    requires Succeeds(st, run) && PlainItems(ItemsOfRun(run))
    ensures PlansMutation(PlanAfter(st, run, order')) <==> Contradicting(ItemsOfRun(run), st.zones)
  {
    var items, st' := ItemsOfRun(run), Step(st, run);
    DesiredKeysAreDiffed(st, run);
    UnsettledIff(st.zones, run.plan, items);
    MutationIff(items, Candidates(order', st'.rows, run.req, run.names, Keys(items)), st'.zones);
  }

  lemma MutationIsDiff(items: seq<Item>, cs: seq<Item>, zones: Zones, p: Planned)
    requires (p in Diffs(items, zones) || p in Deletes(cs, zones)) && Mutates(p)
    ensures p.item in items && p == Diff(At(zones, p.item.key), p.item)
  {
    DiffsIff(items, zones, p);
    if p in Deletes(cs, zones) {
      DeleteIsOwned(cs, zones, p);
    }
  }

  /** With distinct owners and types among the desired records it plans neither, whatever the names contain. */
  lemma ConvergesForDistinctKeys(st: State, run: Run, order': seq<Lease>, p: Planned)
    requires Succeeds(st, run)
    requires forall i, j :: i in ItemsOfRun(run) && j in ItemsOfRun(run) && i.key == j.key ==> i == j
    requires p in PlanAfter(st, run, order')
    ensures !Mutates(p)
  {
    var items := ItemsOfRun(run);
    var zones := Step(st, run).zones;
    DesiredKeysAreDiffed(st, run);
    var cs := Candidates(order', Step(st, run).rows, run.req, run.names, Keys(items));
    if Mutates(p) {
      MutationIsDiff(items, cs, zones, p);
      AgreedItemSettled(st.zones, run.plan, items, p.item);
    }
  }

  // ---- suppressed deletes ----------------------------------------------------------------------------------------

  /** Address records and PTR records have different types. */
  ghost predicate Typed(names: Names) {
    && (forall host, zone, ip :: names.forward(host, zone, ip).rtype != "PTR")
    && (forall ip :: names.reverse(ip).Some? ==> names.reverse(ip).value.rtype == "PTR")
  }

  lemma {:induction false} CandidatesDiffer(order: seq<Lease>, rows: Rows, req: Request, names: Names,
                                            desired: set<Key>)
    requires NoDuplicates(order) && Typed(names)
    ensures OneCandidateEach(Candidates(order, rows, req, names, desired))
  {
    if |order| > 0 {
      var n := |order| - 1;
      CandidatesDiffer(order[..n], rows, req, names, desired);
      var before := Candidates(order[..n], rows, req, names, desired);
      forall a | 0 <= a < |before| ensures before[a].lease != order[n] {
        CandidateIsStale(order[..n], rows, req, names, desired, before[a]);
      }
    }
  }

  /** After a successful apply the record that a stale row left is still there exactly if another stale lease's record
      with the same owner and ip was planned for deletion first. */
  lemma StaleRecordRemainsAfterApplyIff(st: State, run: Run, n: nat)
    requires Succeeds(st, run) && AllDistinct(st.zones) && NoDuplicates(run.order) && Typed(run.names)
    requires var cs := CandidatesOf(st, run); n < |cs| && Matches(st.zones, cs[n])
    ensures var cs := CandidatesOf(st, run);
            Owned(At(st.zones, cs[n].key), cs[n].lease)[0] in At(Step(st, run).zones, cs[n].key)
            <==> Suppressed(cs, st.zones, n)
  {
    var cs := CandidatesOf(st, run);
    CandidatesDiffer(run.order, st.rows, run.req, run.names, Keys(ItemsOfRun(run)));
    UndesiredKeysAreDeleted(st, run, cs[n]);
    forall q | q in Deletes(cs, st.zones) ensures q in run.plan {
      PlanParts(st, run, q);
    }
    assert Distinct(At(st.zones, cs[n].key));
    StaleRecordRemainsIff(cs, st.zones, run.plan, n);
  }

  // ---- deletes planned again -------------------------------------------------------------------------------------

  lemma DeletesAreInPlan(st: State, run: Run)
    requires Succeeds(st, run)
    ensures forall q :: q in Deletes(CandidatesOf(st, run), st.zones) ==> q in run.plan
  {
    forall q | q in Deletes(CandidatesOf(st, run), st.zones) ensures q in run.plan {
      PlanParts(st, run, q);
    }
  }

  lemma DeleteComesFromCandidate(st: State, run: Run, order': seq<Lease>, p: Planned)
    requires p in PlanAfter(st, run, order') && p.status == DeleteRecord
    ensures p.item in Candidates(order', Step(st, run).rows, run.req, run.names, Keys(ItemsOfRun(run)))
    ensures Matches(Step(st, run).zones, p.item)
  {
    var items, st' := ItemsOfRun(run), Step(st, run);
    var later := Candidates(order', st'.rows, run.req, run.names, Keys(items));
    DiffsIff(items, st'.zones, p);
    DeleteIsOwned(later, st'.zones, p);
  }

  predicate IsLive(ds: seq<Desired>, lease: Lease) {
    exists d :: d in ds && d.lease == lease
  }

  /** The n-th candidate's delete was suppressed, and its row stays: the lease is not live again, and no delete of the
      plan takes the row with it. */
  ghost predicate LeftBehind(st: State, run: Run, n: nat)
    requires n < |CandidatesOf(st, run)|
  {
    var cs := CandidatesOf(st, run);
    && Matches(st.zones, cs[n]) && Suppressed(cs, st.zones, n)
    && cs[n].lease !in RemovedLeases(run.plan, {}) && !IsLive(run.ds, cs[n].lease)
  }

  /** A candidate of the next preview that matches was left behind. */
  lemma LaterCandidateWasLeft(st: State, run: Run, order': seq<Lease>, c: Item) returns (n: nat)
    requires Succeeds(st, run) && AllDistinct(st.zones) && ListsLater(run, order')
    requires c in Candidates(order', Step(st, run).rows, run.req, run.names, Keys(ItemsOfRun(run)))
    requires Matches(Step(st, run).zones, c)
    ensures n < |CandidatesOf(st, run)| && CandidatesOf(st, run)[n] == c && LeftBehind(st, run, n)
  {
    var desired, rows, cs := Keys(ItemsOfRun(run)), Step(st, run).rows, CandidatesOf(st, run);
    CandidateWasOne(st, run, order', c);
    n :| 0 <= n < |cs| && cs[n] == c;
    CandidateIsStale(order', rows, run.req, run.names, desired, c);
    if IsLive(run.ds, c.lease) {
      LiveLeaseIsMarked(st.rows, run.marks, run.req.now, c.lease);
      var d :| d in run.marks && Marks(d, c.lease, rows[c.lease], run.req.now);
      LiveRowIsDesired(d, run.ds, run.req, run.names, rows[c.lease]);
    }
    UndesiredKeysAreDeleted(st, run, c);
    DeletesAreInPlan(st, run);
    assert Distinct(At(st.zones, c.key));
    if !(Matches(st.zones, c) && Suppressed(cs, st.zones, n)) {
      NoLongerMatches(cs, st.zones, run.plan, n);
    }
  }

  /** Unless a delete was suppressed it plans no delete either, whatever rows are listed then. */
  lemma NoDeleteAfter(st: State, run: Run, order': seq<Lease>, p: Planned)
    requires Succeeds(st, run) && AllDistinct(st.zones) && NoneSuppressed(st, run) && ListsLater(run, order')
    requires p in PlanAfter(st, run, order')
    ensures p.status != DeleteRecord
  {
    if p.status == DeleteRecord {
      DeleteComesFromCandidate(st, run, order', p);
      var n := LaterCandidateWasLeft(st, run, order', p.item);
    }
  }

  /** `order'` lists every row of `run.order` that the apply leaves. */
  ghost predicate ListsSurvivors(st: State, run: Run, order': seq<Lease>) {
    forall lease :: lease in run.order && lease in Step(st, run).rows ==> lease in order'
  }

  lemma LeftRowIsListed(st: State, run: Run, order': seq<Lease>, n: nat)
    requires Executes(st, run) && run.failed == {} && ListsSurvivors(st, run, order')
    requires n < |CandidatesOf(st, run)| && LeftBehind(st, run, n)
    ensures CandidatesOf(st, run)[n] in Candidates(order', Step(st, run).rows, run.req, run.names, Keys(ItemsOfRun(run)))
  {
    var desired, rows, c := Keys(ItemsOfRun(run)), Step(st, run).rows, CandidatesOf(st, run)[n];
    CandidateIsStale(run.order, st.rows, run.req, run.names, desired, c);
    MarkedStays(st.rows, run.marks, run.req.now, c.lease);
    RowAfterMark(st.rows, run.marks, run.req.now, c.lease);
    StaleItemIsCandidate(order', rows, run.req, run.names, desired, c.lease, c);
  }

  lemma {:induction false} MarkedStays(rows: Rows, marks: seq<Desired>, now: int, lease: Lease)
    requires lease in rows
    ensures lease in MarkSeen(rows, marks, now)
  {
    if |marks| > 0 {
      MarkedStays(rows, marks[..|marks| - 1], now, lease);
    }
  }

  lemma LeftRecordMatches(st: State, run: Run, n: nat)
    requires Succeeds(st, run) && AllDistinct(st.zones) && NoDuplicates(run.order) && Typed(run.names)
    requires n < |CandidatesOf(st, run)| && LeftBehind(st, run, n)
    ensures Matches(Step(st, run).zones, CandidatesOf(st, run)[n])
  {
    var cs := CandidatesOf(st, run);
    var key, lease, after := cs[n].key, cs[n].lease, Step(st, run).zones;
    StaleRecordRemainsAfterApplyIff(st, run, n);
    ExecuteAt(st.zones, run.plan, {}, key);
    ExecuteDistinct(st.zones, run.plan, {});
    UndesiredKeysAreDeleted(st, run, cs[n]);
    OnlyDeletesDelete(run.plan, key, cs, st.zones);
    var before := Owned(At(st.zones, key), lease);
    assert before[0] in before && Distinct(At(after, key));
    OwnedDistinct(At(after, key), lease);
    forall r | r in Owned(At(after, key), lease) ensures r in before {
      OwnedShrinks(At(st.zones, key), run.plan, key, lease, r);
    }
    if |Owned(At(after, key), lease)| > 1 {
      TwoAreNotOne(Owned(At(after, key), lease), before);
    }
  }

  ghost predicate PlansDelete(plan: seq<Planned>) {
    exists p :: p in plan && p.status == DeleteRecord
  }

  /** With the same live leases at the same time, the preview after a successful apply plans a delete exactly if the
      apply left a suppressed record behind together with its row. */
  lemma DeletesAgainIff(st: State, run: Run, order': seq<Lease>)
    requires Succeeds(st, run) && AllDistinct(st.zones) && NoDuplicates(run.order) && Typed(run.names)
    requires ListsLater(run, order') && ListsSurvivors(st, run, order')
    ensures PlansDelete(PlanAfter(st, run, order'))
            <==> exists n: nat :: n < |CandidatesOf(st, run)| && LeftBehind(st, run, n)
  {
    if PlansDelete(PlanAfter(st, run, order')) {
      var p :| p in PlanAfter(st, run, order') && p.status == DeleteRecord;
      DeleteComesFromCandidate(st, run, order', p);
      var n := LaterCandidateWasLeft(st, run, order', p.item);
    }
    if n: nat :| n < |CandidatesOf(st, run)| && LeftBehind(st, run, n) {
      var st' := Step(st, run);
      var later := Candidates(order', st'.rows, run.req, run.names, Keys(ItemsOfRun(run)));
      LeftRowIsListed(st, run, order', n);
      LeftRecordMatches(st, run, n);
      var c := CandidatesOf(st, run)[n];
      MatchingIsPlanned(later, st'.zones, c);
      var p :| p in Deletes(later, st'.zones) && IsDeleteOf(p, c.key, c.lease.ip);
      assert p in PlanAfter(st, run, order');
    }
  }

  // ---- rows of deleted records -------------------------------------------------------------------------------------

  /** The leases whose records were really deleted. */
  function DeletedLeases(plan: seq<Planned>, failed: set<nat>): set<Lease> {
    set n: nat | n < |plan| && Deleted(plan, failed, n) :: plan[n].item.lease
  }

  /** No delete shares its key with an earlier entry of another lease. */
  ghost predicate OneLeasePerKey(plan: seq<Planned>) {
    forall n :: 0 <= n < |plan| && plan[n].status == DeleteRecord ==>
      var first := FirstAt(plan, plan[n].item.key);
      first < |plan| && plan[first].item.lease == plan[n].item.lease
  }

  lemma {:induction false} FirstAtIsThere(plan: seq<Planned>, n: nat)
    requires n < |plan|
    ensures FirstAt(plan, plan[n].item.key) <= n
  {
    if plan[0].item.key != plan[n].item.key {
      FirstAtIsThere(plan[1..], n - 1);
    }
  }

  /** Every write but the n-th fails. */
  ghost function AllBut(size: nat, n: nat): (failed: set<nat>)
    ensures forall m: nat :: m in failed <==> m < size && m != n
  {
    if size == 0 then {} else AllBut(size - 1, n) + if size - 1 == n then {} else {size - 1}
  }

  lemma OnlyOneSucceeds(plan: seq<Planned>, n: nat)
    requires n < |plan| && plan[n].status == DeleteRecord
    requires var first := FirstAt(plan, plan[n].item.key);
             first < |plan| ==> plan[first].item.lease != plan[n].item.lease
    ensures plan[n].item.lease in DeletedLeases(plan, AllBut(|plan|, n))
    ensures plan[n].item.lease !in RemovedLeases(plan, AllBut(|plan|, n))
  {
    FirstAtIsThere(plan, n);
    assert Deleted(plan, AllBut(|plan|, n), n);
    forall m: nat | m < |plan| && Deleted(plan, AllBut(|plan|, n), m) ensures m == n {
    }
  }

  /** Whichever writes fail, the rows removed are those of the deleted records: exactly if no delete shares its key with
      an earlier entry of another lease. Otherwise the row of a record that is still there can be lost. */
  lemma RowsFollowRecordsIff(plan: seq<Planned>)
    ensures (forall failed: set<nat> :: RemovedLeases(plan, failed) == DeletedLeases(plan, failed)) <==> OneLeasePerKey(plan)
  {
    if OneLeasePerKey(plan) {
      forall failed: set<nat> ensures RemovedLeases(plan, failed) == DeletedLeases(plan, failed) {
        RowsFollow(plan, failed);
      }
    } else {
      var n :| 0 <= n < |plan| && plan[n].status == DeleteRecord
               && (FirstAt(plan, plan[n].item.key) < |plan| ==>
                     plan[FirstAt(plan, plan[n].item.key)].item.lease != plan[n].item.lease);
      OnlyOneSucceeds(plan, n);
      assert RemovedLeases(plan, AllBut(|plan|, n)) != DeletedLeases(plan, AllBut(|plan|, n));
    }
  }

  lemma RowsFollow(plan: seq<Planned>, failed: set<nat>)
    requires OneLeasePerKey(plan)
    ensures RemovedLeases(plan, failed) == DeletedLeases(plan, failed)
  {
    forall lease ensures lease in RemovedLeases(plan, failed) <==> lease in DeletedLeases(plan, failed) {
      if lease in DeletedLeases(plan, failed) {
        var n: nat :| n < |plan| && Deleted(plan, failed, n) && plan[n].item.lease == lease;
        assert plan[FirstAt(plan, plan[n].item.key)].item.lease == lease;
      }
      if lease in RemovedLeases(plan, failed) {
        var n: nat :| n < |plan| && Deleted(plan, failed, n) && FirstAt(plan, plan[n].item.key) < |plan|
                      && plan[FirstAt(plan, plan[n].item.key)].item.lease == lease;
        assert plan[n].item.lease == lease;
      }
    }
  }
}
