/** What a plan holds, in terms of the live leases, the stored rows, the records found and the request. */
module DhcpSyncPlan {
  import opened Options
  import opened ManagedComment
  import opened Sequences
  import opened DhcpSyncModel
  import opened DhcpSyncOwnership
  import opened DhcpSyncDeletes
  import opened DhcpSyncTheorems

  // ---- live leases -------------------------------------------------------------------------------------------

  /** The key is that of the lease's address record. */
  predicate IsAddress(d: Desired, names: Names, key: Key) {
    key == names.forward(d.host, d.zone, d.lease.ip)
  }

  /** The key is that of the lease's PTR record, and PTR records are asked for. */
  predicate IsReverse(d: Desired, req: Request, names: Names, key: Key) {
    req.includeReverse && names.reverse(d.lease.ip) == Some(key)
  }

  ghost predicate IsLiveEntry(d: Desired, req: Request, names: Names, p: Planned) {
    && p.item.lease == d.lease && p.item.host == d.host && p.item.mac == d.mac
    && ((IsAddress(d, names, p.item.key) && p.item.value == d.lease.ip) ||
        (IsReverse(d, req, names, p.item.key) && p.item.value == d.fqdn))
  }

  /** What is done about a record that ought to be there, given those that are. */
  ghost predicate IsRightStatus(rr: seq<Rec>, p: Planned) {
    match p.status
    case CreateRecord => |rr| == 0
    case UpdateRecord =>
      |rr| == 1 && rr[0].value != p.item.value && ManagedFor(rr[0], p.item.lease) && p.current == rr[0].value
    case AlreadyCorrect => |rr| == 1 && rr[0].value == p.item.value
    case Conflict => |rr| > 1 || (|rr| == 1 && rr[0].value != p.item.value && !ManagedFor(rr[0], p.item.lease))
    case DeleteRecord => false
  }

  lemma DiffIsRight(rr: seq<Rec>, i: Item)
    ensures Diff(rr, i).item == i && IsRightStatus(rr, Diff(rr, i))
  {
  }

  lemma ItemIff(d: Desired, req: Request, names: Names, i: Item)
    ensures i in ItemsOf(d, req, names) <==> IsLiveEntry(d, req, names, Planned(CreateRecord, i, ""))
  {
  }

  lemma DiffIsNoDelete(items: seq<Item>, zones: Zones, p: Planned)
    requires p in Diffs(items, zones)
    ensures p.item in items && IsRightStatus(At(zones, p.item.key), p)
  {
    DiffsIff(items, zones, p);
    DiffIsRight(At(zones, p.item.key), p.item);
  }

  /** Every entry that is not a delete is for a record of a live lease, and says what has to be done about it. */
  lemma EntryIsLive(ds: seq<Desired>, order: seq<Lease>, rows: Rows, zones: Zones, req: Request, names: Names, p: Planned)
    requires p in Plan(ds, order, rows, zones, req, names) && p.status != DeleteRecord
    ensures exists d :: d in ds && IsLiveEntry(d, req, names, p)
    ensures IsRightStatus(At(zones, p.item.key), p)
  {
    var items := Items(ds, req, names);
    var cs := Candidates(order, rows, req, names, Keys(items));
    if p in Deletes(cs, zones) {
      DeleteIsOwned(cs, zones, p);
    }
    DiffIsNoDelete(items, zones, p);
    var d :| d in ds && p.item in ItemsOf(d, req, names);
    ItemIff(d, req, names, p.item);
    assert IsLiveEntry(d, req, names, p);
  }

  /** Every record of a live lease has such an entry. */
  lemma LiveHasEntry(ds: seq<Desired>, order: seq<Lease>, rows: Rows, zones: Zones, req: Request, names: Names, d: Desired,
                     i: Item)
    requires d in ds && IsLiveEntry(d, req, names, Planned(CreateRecord, i, ""))
    ensures exists p :: p in Plan(ds, order, rows, zones, req, names) && p.status != DeleteRecord && p.item == i
  {
    var items := Items(ds, req, names);
    ItemIff(d, req, names, i);
    DiffsIff(items, zones, Diff(At(zones, i.key), i));
    DiffIsRight(At(zones, i.key), i);
  }

  ghost predicate HasReverseEntry(plan: seq<Planned>, lease: Lease) {
    exists p :: p in plan && p.status != DeleteRecord && p.item.key.rtype == "PTR" && p.item.lease == lease
  }

  /** A plan holds a PTR entry for a live lease exactly if PTR records are asked for and its reverse zone exists. */
  lemma ReversePlannedIff(ds: seq<Desired>, order: seq<Lease>, rows: Rows, zones: Zones, req: Request, names: Names,
                          d: Desired)
    requires d in ds && Typed(names)
    ensures HasReverseEntry(Plan(ds, order, rows, zones, req, names), d.lease) <==>
            req.includeReverse && names.reverse(d.lease.ip).Some?
  {
    var plan := Plan(ds, order, rows, zones, req, names);
    if p :| p in plan && p.status != DeleteRecord && p.item.key.rtype == "PTR" && p.item.lease == d.lease {
      EntryIsLive(ds, order, rows, zones, req, names, p);
    }
    if req.includeReverse && names.reverse(d.lease.ip).Some? {
      LiveHasEntry(ds, order, rows, zones, req, names, d,
                   Item(names.reverse(d.lease.ip).value, d.lease, d.host, d.mac, d.fqdn));
    }
  }

  // ---- stale rows ----------------------------------------------------------------------------------------------

  /** No live lease wants the key. */
  ghost predicate Unwanted(ds: seq<Desired>, req: Request, names: Names, key: Key) {
    forall d :: d in ds ==> !IsAddress(d, names, key) && !IsReverse(d, req, names, key)
  }

  lemma UnwantedIff(ds: seq<Desired>, req: Request, names: Names, key: Key)
    ensures Unwanted(ds, req, names, key) <==> key !in Keys(Items(ds, req, names))
  {
    var items := Items(ds, req, names);
    if key in Keys(items) {
      var i :| i in items && i.key == key;
      var d :| d in ds && i in ItemsOf(d, req, names);
      ItemIff(d, req, names, i);
    }
    if d :| d in ds && (IsAddress(d, names, key) || IsReverse(d, req, names, key)) {
      var i := Item(key, d.lease, d.host, d.mac, if IsAddress(d, names, key) then d.lease.ip else d.fqdn);
      ItemIff(d, req, names, i);
      assert i in items;
    }
  }

  /** The entry is for the address or PTR record of a listed row that has not been seen for the grace period, and no live
      lease wants that record. */
  ghost predicate IsStaleRecord(ds: seq<Desired>, order: seq<Lease>, rows: Rows, req: Request, names: Names, c: Item) {
    && c.lease in order && c.lease in rows
    && var row := rows[c.lease];
       && req.now - row.lastSeen >= req.graceSeconds * 1000
       && (c.key == names.forward(row.host, row.zone, c.lease.ip) ||
           (req.includeReverse && names.reverse(c.lease.ip) == Some(c.key)))
       && c.host == row.host && c.mac == row.mac && c.value == "" && Unwanted(ds, req, names, c.key)
  }

  lemma StaleItemIff(lease: Lease, row: Seen, req: Request, names: Names, desired: set<Key>, c: Item)
    ensures c in StaleItems(lease, row, req, names, desired) <==>
            && req.now - row.lastSeen >= req.graceSeconds * 1000 && c.lease == lease
            && (c.key == names.forward(row.host, row.zone, lease.ip) ||
                (req.includeReverse && names.reverse(lease.ip) == Some(c.key)))
            && c.host == row.host && c.mac == row.mac && c.value == "" && c.key !in desired
  {
  }

  lemma CandidateIff(ds: seq<Desired>, order: seq<Lease>, rows: Rows, req: Request, names: Names, c: Item)
    ensures c in Candidates(order, rows, req, names, Keys(Items(ds, req, names))) <==>
            IsStaleRecord(ds, order, rows, req, names, c)
  {
    var desired := Keys(Items(ds, req, names));
    UnwantedIff(ds, req, names, c.key);
    if c in Candidates(order, rows, req, names, desired) {
      CandidateIsStale(order, rows, req, names, desired, c);
      StaleItemIff(c.lease, rows[c.lease], req, names, desired, c);
    }
    if IsStaleRecord(ds, order, rows, req, names, c) {
      StaleItemIff(c.lease, rows[c.lease], req, names, desired, c);
      StaleItemIsCandidate(order, rows, req, names, desired, c.lease, c);
    }
  }

  ghost function Places(rr: seq<Rec>, good: Rec -> bool): set<nat> {
    set n: nat | n < |rr| && good(rr[n])
  }

  lemma PlacesSnoc(rr: seq<Rec>, r: Rec, good: Rec -> bool)
    ensures |Places(rr + [r], good)| == |Places(rr, good)| + if good(r) then 1 else 0
  {
    var all := rr + [r];
    forall n: nat | n < |rr| ensures all[n] == rr[n] {
    }
    assert Places(all, good) == Places(rr, good) + if good(r) then {|rr|} else {};
    assert |rr| !in Places(rr, good);
  }

  /** The positions of the records that are managed for the lease. */
  ghost function OwnPlaces(rr: seq<Rec>, lease: Lease): set<nat> {
    Places(rr, r => ManagedFor(r, lease))
  }

  lemma OwnPlacesSnoc(rr: seq<Rec>, r: Rec, lease: Lease)
    ensures |OwnPlaces(rr + [r], lease)| == |OwnPlaces(rr, lease)| + if ManagedFor(r, lease) then 1 else 0
  {
    PlacesSnoc(rr, r, r => ManagedFor(r, lease));
  }

  lemma {:induction false} OwnedAre(rr: seq<Rec>, lease: Lease)
    ensures |Owned(rr, lease)| == |OwnPlaces(rr, lease)|
  {
    if |rr| == 0 {
      assert OwnPlaces(rr, lease) == {};
    } else {
      OwnedAre(rr[..|rr| - 1], lease);
      InitLast(rr);
      OwnPlacesSnoc(rr[..|rr| - 1], rr[|rr| - 1], lease);
    }
  }

  /** A stale record that the zone holds exactly once for its lease. */
  ghost predicate IsDeletable(ds: seq<Desired>, order: seq<Lease>, rows: Rows, zones: Zones, req: Request, names: Names,
                              c: Item)
  {
    IsStaleRecord(ds, order, rows, req, names, c) && |OwnPlaces(At(zones, c.key), c.lease)| == 1
  }

  /** Every delete of a plan removes such a record. */
  lemma DeleteIsRight(ds: seq<Desired>, order: seq<Lease>, rows: Rows, zones: Zones, req: Request, names: Names, p: Planned)
    requires p in Plan(ds, order, rows, zones, req, names) && p.status == DeleteRecord
    ensures IsDeletable(ds, order, rows, zones, req, names, p.item)
    ensures exists r :: r in At(zones, p.item.key) && ManagedFor(r, p.item.lease) && p.current == r.value
  {
    DeleteInPlan(ds, order, rows, zones, req, names, p);
    CandidateIff(ds, order, rows, req, names, p.item);
    OwnedAre(At(zones, p.item.key), p.item.lease);
    var owned := Owned(At(zones, p.item.key), p.item.lease);
    assert owned[0] in owned;
  }

  /** And of the records to remove at one owner for one address, one is removed. */
  lemma DeletableIsPlanned(ds: seq<Desired>, order: seq<Lease>, rows: Rows, zones: Zones, req: Request, names: Names,
                           c: Item)
    requires IsDeletable(ds, order, rows, zones, req, names, c)
    ensures exists p :: p in Plan(ds, order, rows, zones, req, names) && IsDeleteOf(p, c.key, c.lease.ip)
  {
    var cs := Candidates(order, rows, req, names, Keys(Items(ds, req, names)));
    CandidateIff(ds, order, rows, req, names, c);
    OwnedAre(At(zones, c.key), c.lease);
    MatchingIsPlanned(cs, zones, c);
    var p :| p in Deletes(cs, zones) && IsDeleteOf(p, c.key, c.lease.ip);
    assert p in Plan(ds, order, rows, zones, req, names);
  }

  lemma DeleteInPlan(ds: seq<Desired>, order: seq<Lease>, rows: Rows, zones: Zones, req: Request, names: Names, p: Planned)
    requires p in Plan(ds, order, rows, zones, req, names) && p.status == DeleteRecord
    ensures var cs := Candidates(order, rows, req, names, Keys(Items(ds, req, names)));
            p in Deletes(cs, zones) && p.item in cs && Matches(zones, p.item) && p == DeleteOf(zones, p.item)
  {
    var items := Items(ds, req, names);
    if p in Diffs(items, zones) {
      DiffIsNoDelete(items, zones, p);
    }
    DeleteIsOwned(Candidates(order, rows, req, names, Keys(items)), zones, p);
  }
}
