/** A preview taken right after a successful apply: what it may still plan. */
module DhcpSyncConvergence {
  import opened Options
  import opened ManagedComment
  import opened DhcpSyncModel
  import opened DhcpSyncOwnership

  // ---- creates and updates -----------------------------------------------------------------------------------

  /** The plan of a key's items, against the record set `rr`. */
  ghost predicate PlansDiffs(plan: seq<Planned>, key: Key, items: seq<Item>, rr: seq<Rec>) {
    && (forall p :: p in plan && p.item.key == key ==> p.item in items && p == Diff(rr, p.item))
    && (forall i :: i in items && i.key == key ==> Diff(rr, i) in plan)
  }

  predicate Mutates(p: Planned) {
    p.status == CreateRecord || p.status == UpdateRecord
  }

  lemma {:induction false} NothingToDo(rr: seq<Rec>, plan: seq<Planned>, key: Key)
    requires forall p :: p in plan && p.item.key == key ==> !Mutates(p) && p.status != DeleteRecord
    ensures WriteAt(rr, plan, key, {}) == rr
  {
    if |plan| > 0 {
      NothingToDo(rr, plan[..|plan| - 1], key);
      assert plan[|plan| - 1] in plan;
    }
  }

  lemma AddHas(rr: seq<Rec>, r: Rec)
    ensures Has(Add(rr, r), r.value)
    ensures forall v :: Has(rr, v) ==> Has(Add(rr, r), v)
  {
    if !Has(rr, r.value) {
      assert (rr + [r])[|rr|] == r;
      forall v | Has(rr, v) ensures Has(rr + [r], v) {
        var n :| 0 <= n < |rr| && rr[n].value == v;
        assert (rr + [r])[n] == rr[n];
      }
    }
  }

  /** Creates for a key accumulate. */
  lemma {:induction false} CreatesStay(rr: seq<Rec>, plan: seq<Planned>, key: Key)
    requires forall p :: p in plan && p.item.key == key ==> p.status == CreateRecord
    ensures forall p :: p in plan && p.item.key == key ==> Has(WriteAt(rr, plan, key, {}), p.item.value)
  {
    if |plan| > 0 {
      var n := |plan| - 1;
      CreatesStay(rr, plan[..n], key);
      assert plan[n] in plan;
      AddHas(WriteAt(rr, plan[..n], key, {}), Rec(plan[n].item.value, CommentOf(plan[n].item)));
      forall p | p in plan && p.item.key == key ensures Has(WriteAt(rr, plan, key, {}), p.item.value) {
        assert p in plan[..n] || p == plan[n];
      }
    }
  }

  /** With several values created the set is a conflict, with one it is correct. */
  lemma CreatedIsSettled(plan: seq<Planned>, key: Key, items: seq<Item>, i: Item)
    requires PlansDiffs(plan, key, items, []) && i in items && i.key == key
    ensures !Mutates(Diff(WriteAt([], plan, key, {}), i))
  {
    CreatesStay([], plan, key);
    assert Diff([], i) in plan;
    assert Has(WriteAt([], plan, key, {}), i.value);
  }

  /** Records managed for a lease after an update or a create by an item: for the item's own lease only. */
  predicate PlainItem(i: Item) {
    AllPlain(Managed(i.lease.node, i.lease.scope, i.lease.ip, i.host, i.mac))
  }

  lemma OwnComment(i: Item, lease: Lease)
    requires PlainItem(i)
    ensures ManagedFor(Rec(i.value, CommentOf(i)), lease) <==> lease == i.lease
  {
    RoundTripIff(Managed(i.lease.node, i.lease.scope, i.lease.ip, i.host, i.mac));
  }

  /** The first update of the plan decides; later ones no longer find the record. */
  ghost predicate UpdatedTo(rr: seq<Rec>, cur: Rec, plan: seq<Planned>, key: Key) {
    if exists p :: p in plan && p.item.key == key && p.status == UpdateRecord then
      exists p :: p in plan && p.item.key == key && p.status == UpdateRecord && rr == [Rec(p.item.value, CommentOf(p.item))]
    else rr == [cur]
  }

  lemma UpdateOnce(rr: seq<Rec>, cur: Rec, plan: seq<Planned>, key: Key, p: Planned)
    requires UpdatedTo(rr, cur, plan, key)
    requires forall q :: q in plan + [p] && q.item.key == key ==> q == Diff([cur], q.item)
    requires p.item.key == key
    ensures UpdatedTo(Write(rr, p), cur, plan + [p], key)
  {
    assert p in plan + [p] && p == Diff([cur], p.item);
    if q :| q in plan && q.item.key == key && q.status == UpdateRecord && rr == [Rec(q.item.value, CommentOf(q.item))] {
      assert q in plan + [p] && q == Diff([cur], q.item) && q.item.value != cur.value;
      assert !Has(rr, cur.value);
    } else {
      assert rr == [cur];
      if p.status == UpdateRecord {
        assert rr[0].value == cur.value;
        assert Has(rr, p.current);
        assert Remove([cur], cur.value) == [];
        assert Write(rr, p) == [Rec(p.item.value, CommentOf(p.item))];
      }
      assert Write(rr, p) == if p.status == UpdateRecord then [Rec(p.item.value, CommentOf(p.item))] else [cur];
      forall q | q in plan + [p] && q.item.key == key && q.status == UpdateRecord ensures q in plan || q == p {
      }
    }
  }

  lemma {:induction false} FirstUpdateWins(cur: Rec, plan: seq<Planned>, key: Key)
    requires forall q :: q in plan && q.item.key == key ==> q == Diff([cur], q.item)
    ensures UpdatedTo(WriteAt([cur], plan, key, {}), cur, plan, key)
  {
    if |plan| > 0 {
      var n := |plan| - 1;
      FirstUpdateWins(cur, plan[..n], key);
      assert plan == plan[..n] + [plan[n]];
      if plan[n].item.key == key {
        UpdateOnce(WriteAt([cur], plan[..n], key, {}), cur, plan[..n], key, plan[n]);
      } else {
        OtherKey(WriteAt([cur], plan[..n], key, {}), cur, plan[..n], key, plan[n]);
      }
    }
  }

  lemma OtherKey(rr: seq<Rec>, cur: Rec, plan: seq<Planned>, key: Key, p: Planned)
    requires UpdatedTo(rr, cur, plan, key) && p.item.key != key
    ensures UpdatedTo(rr, cur, plan + [p], key)
  {
    forall q | q in plan ensures q in plan + [p] {
    }
  }

  /** Two items of one lease want different data for one key, whose only record is managed for that lease. */
  ghost predicate Contradict(rr: seq<Rec>, i: Item, j: Item) {
    i.key == j.key && i.lease == j.lease && i.value != j.value && |rr| == 1 && ManagedFor(rr[0], i.lease)
  }

  /** The updated record is wrong for an item only if the item contradicts the one that made the update. */
  lemma UnsettledContradicts(cur: Rec, plan: seq<Planned>, items: seq<Item>, i: Item) returns (j: Item)
    requires PlansDiffs(plan, i.key, items, [cur]) && i in items && PlainItems(items)
    requires Mutates(Diff(WriteAt([cur], plan, i.key, {}), i))
    ensures j in items && Contradict([cur], i, j)
  {
    FirstUpdateWins(cur, plan, i.key);
    assert Diff([cur], i) in plan;
    var after := WriteAt([cur], plan, i.key, {});
    assert after == [cur] ==> Diff([cur], i).status == UpdateRecord;
    var p :| p in plan && p.item.key == i.key && p.status == UpdateRecord && after == [Rec(p.item.value, CommentOf(p.item))];
    j := p.item;
    assert p == Diff([cur], j);
    OwnComment(j, i.lease);
  }

  predicate PlainItems(items: seq<Item>) {
    forall i :: i in items ==> PlainItem(i)
  }

  /** Contradicting items stay so: one of the two is always wrong. */
  lemma ContradictionStays(cur: Rec, plan: seq<Planned>, items: seq<Item>, i: Item, j: Item)
    requires PlansDiffs(plan, i.key, items, [cur]) && i in items && j in items && PlainItems(items)
    requires Contradict([cur], i, j)
    ensures var after := WriteAt([cur], plan, i.key, {}); Mutates(Diff(after, i)) || Mutates(Diff(after, j))
  {
    FirstUpdateWins(cur, plan, i.key);
    var after := WriteAt([cur], plan, i.key, {});
    var k := if i.value == cur.value then j else i;
    assert Diff([cur], k) in plan && Diff([cur], k).status == UpdateRecord;
    var p :| p in plan && p.item.key == i.key && p.status == UpdateRecord && after == [Rec(p.item.value, CommentOf(p.item))];
    assert p == Diff([cur], p.item) && p.item in items;
    OwnComment(p.item, i.lease);
  }

  ghost predicate PlansAllDiffs(plan: seq<Planned>, items: seq<Item>, zones: Zones) {
    forall i :: i in items ==> PlansDiffs(plan, i.key, items, At(zones, i.key))
  }

  ghost predicate Unsettled(items: seq<Item>, zones: Zones) {
    exists i :: i in items && Mutates(Diff(At(zones, i.key), i))
  }

  ghost predicate Contradicting(items: seq<Item>, zones: Zones) {
    exists i, j :: i in items && j in items && Contradict(At(zones, i.key), i, j)
  }

  lemma ItemSettled(zones: Zones, plan: seq<Planned>, items: seq<Item>, i: Item)
    requires PlansAllDiffs(plan, items, zones) && PlainItems(items) && i in items && !Contradicting(items, zones)
    ensures !Mutates(Diff(At(Execute(zones, plan, {}), i.key), i))
  {
    ExecuteAt(zones, plan, {}, i.key);
    var rr := At(zones, i.key);
    if |rr| == 0 {
      CreatedIsSettled(plan, i.key, items, i);
    } else if |rr| > 1 {
      NothingToDo(rr, plan, i.key);
    } else {
      assert rr == [rr[0]];
      if Mutates(Diff(WriteAt(rr, plan, i.key, {}), i)) {
        var j := UnsettledContradicts(rr[0], plan, items, i);
      }
    }
  }

  /** Items of one key that want the same data never leave anything to do, whatever their names look like. */
  lemma AgreedItemSettled(zones: Zones, plan: seq<Planned>, items: seq<Item>, i: Item)
    requires PlansAllDiffs(plan, items, zones) && i in items
    requires forall j :: j in items && j.key == i.key ==> j.value == i.value
    ensures !Mutates(Diff(At(Execute(zones, plan, {}), i.key), i))
  {
    ExecuteAt(zones, plan, {}, i.key);
    var rr := At(zones, i.key);
    if |rr| == 0 {
      CreatedIsSettled(plan, i.key, items, i);
    } else if |rr| > 1 {
      NothingToDo(rr, plan, i.key);
    } else {
      assert rr == [rr[0]];
      FirstUpdateWins(rr[0], plan, i.key);
      assert Diff(rr, i) in plan;
    }
  }

  /** After all writes succeeded, a create or an update is planned again exactly if two live leases' items contradict
      each other over a record that is managed for them. */
  lemma UnsettledIff(zones: Zones, plan: seq<Planned>, items: seq<Item>)
    requires PlansAllDiffs(plan, items, zones) && PlainItems(items)
    ensures Unsettled(items, Execute(zones, plan, {})) <==> Contradicting(items, zones)
  {
    if i, j :| i in items && j in items && Contradict(At(zones, i.key), i, j) {
      ExecuteAt(zones, plan, {}, i.key);
      var rr := At(zones, i.key);
      assert rr == [rr[0]];
      ContradictionStays(rr[0], plan, items, i, j);
    } else {
      forall i | i in items ensures !Mutates(Diff(At(Execute(zones, plan, {}), i.key), i)) {
        ItemSettled(zones, plan, items, i);
      }
    }
  }
}
