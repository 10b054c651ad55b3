/** DHCP to DNS synchronisation: the plan made from leases, stored rows and zone records, and its execution. */
module DhcpSyncModel {
  import opened Options
  import opened ManagedComment

  // ---- data ------------------------------------------------------------------------------------------------

  datatype Lease = Lease(node: string, scope: string, ip: string)

  /** An owner name and type within a zone, lower-cased as in `recordKey`. */
  datatype Key = Key(zone: string, name: string, rtype: string)

  /** A record's data in the form in which the service compares it, and its comment. */
  datatype Rec = Rec(value: string, comment: string)

  type Zones = map<Key, seq<Rec>>

  function At(zones: Zones, key: Key): seq<Rec> {
    if key in zones then zones[key] else []
  }

  /** A live lease: `desiredRecords`. */
  datatype Desired = Desired(lease: Lease, host: string, fqdn: string, mac: string, zone: string)

  /** A row of `dhcp_dns_sync_seen_leases`; its primary key is the lease. Times are in milliseconds. */
  datatype Seen = Seen(host: string, mac: string, zone: string, lastSeen: int)

  type Rows = map<Lease, Seen>

  /** Owner of the address record of (host, zone, ip), and of the PTR record of an ip if its reverse zone exists. */
  datatype Names = Names(forward: (string, string, string) -> Key, reverse: string -> Option<Key>)

  datatype Request = Request(includeReverse: bool, graceSeconds: nat, now: int)

  /** A record that ought to be there. */
  datatype Item = Item(key: Key, lease: Lease, host: string, mac: string, value: string)

  datatype Status = CreateRecord | UpdateRecord | DeleteRecord | AlreadyCorrect | Conflict

  datatype Planned = Planned(status: Status, item: Item, current: string)

  // ---- what is desired ---------------------------------------------------------------------------------------

  function ItemsOf(d: Desired, req: Request, names: Names): seq<Item> {
    [Item(names.forward(d.host, d.zone, d.lease.ip), d.lease, d.host, d.mac, d.lease.ip)]
    + (if req.includeReverse && names.reverse(d.lease.ip).Some? then
         [Item(names.reverse(d.lease.ip).value, d.lease, d.host, d.mac, d.fqdn)]
       else [])
  }

  function Items(ds: seq<Desired>, req: Request, names: Names): (r: seq<Item>)
    ensures forall i :: i in r <==> exists d :: d in ds && i in ItemsOf(d, req, names)
  {
    if |ds| == 0 then [] else Items(ds[..|ds| - 1], req, names) + ItemsOf(ds[|ds| - 1], req, names)
  }

  /** The union of the two key sets of the source; the record type keeps them apart. */
  function Keys(items: seq<Item>): set<Key> {
    set i | i in items :: i.key
  }

  // ---- comparing with what exists ------------------------------------------------------------------------------

  function CommentOf(i: Item): string {
    Build(Managed(i.lease.node, i.lease.scope, i.lease.ip, i.host, i.mac))
  }

  predicate ManagedFor(r: Rec, lease: Lease) {
    match Parse(r.comment)
    case None => false
    case Some(m) => m.node == lease.node && m.scope == lease.scope && m.ip == lease.ip
  }

  /** `diffExisting`. */
  function Diff(rr: seq<Rec>, i: Item): Planned {
    if |rr| == 0 then Planned(CreateRecord, i, "")
    else if |rr| > 1 then Planned(Conflict, i, "")
    else if rr[0].value == i.value then Planned(AlreadyCorrect, i, rr[0].value)
    else if !ManagedFor(rr[0], i.lease) then Planned(Conflict, i, rr[0].value)
    else Planned(UpdateRecord, i, rr[0].value)
  }

  function Diffs(items: seq<Item>, zones: Zones): (r: seq<Planned>)
    ensures |r| == |items| && forall n :: 0 <= n < |r| ==> r[n] == Diff(At(zones, items[n].key), items[n])
  {
    seq(|items|, n requires 0 <= n < |items| => Diff(At(zones, items[n].key), items[n]))
  }

  // ---- stale records -------------------------------------------------------------------------------------------

  /** The records a stale row may have left, as far as nobody desires their keys now. */
  function StaleItems(lease: Lease, row: Seen, req: Request, names: Names, desired: set<Key>): seq<Item> {
    if req.now - row.lastSeen < req.graceSeconds * 1000 then []
    else
      var f := names.forward(row.host, row.zone, lease.ip);
      (if f in desired then [] else [Item(f, lease, row.host, row.mac, "")])
      + (if !req.includeReverse || names.reverse(lease.ip).None? || names.reverse(lease.ip).value in desired then []
         else [Item(names.reverse(lease.ip).value, lease, row.host, row.mac, "")])
  }

  /** `order` lists the rows of the selected scopes as the database returns them. */
  function Candidates(order: seq<Lease>, rows: Rows, req: Request, names: Names, desired: set<Key>): seq<Item> {
    if |order| == 0 then []
    else
      var last := order[|order| - 1];
      Candidates(order[..|order| - 1], rows, req, names, desired)
      + (if last in rows then StaleItems(last, rows[last], req, names, desired) else [])
  }

  function Owned(rr: seq<Rec>, lease: Lease): (r: seq<Rec>)
    ensures forall x :: x in r <==> x in rr && ManagedFor(x, lease)
  {
    if |rr| == 0 then []
    else Owned(rr[..|rr| - 1], lease) + if ManagedFor(rr[|rr| - 1], lease) then [rr[|rr| - 1]] else []
  }

  /** Exactly one record of the key is managed for the row's lease. */
  predicate Matches(zones: Zones, c: Item) {
    |Owned(At(zones, c.key), c.lease)| == 1
  }

  predicate SameDelete(a: Item, b: Item) {
    a.key == b.key && a.lease.ip == b.lease.ip
  }

  predicate HasDelete(deletes: seq<Planned>, c: Item) {
    exists p :: p in deletes && SameDelete(p.item, c)
  }

  function DeleteOf(zones: Zones, c: Item): Planned
    requires Matches(zones, c)
  {
    Planned(DeleteRecord, c, Owned(At(zones, c.key), c.lease)[0].value)
  }

  /** The planned deletes: candidates that match, one for each key and ip. */
  function Deletes(candidates: seq<Item>, zones: Zones): seq<Planned> {
    if |candidates| == 0 then []
    else
      var before, c := Deletes(candidates[..|candidates| - 1], zones), candidates[|candidates| - 1];
      if Matches(zones, c) && !HasDelete(before, c) then before + [DeleteOf(zones, c)] else before
  }

  /** Zones that could not be read count as empty. */
  function Readable(zones: Zones, unreadable: set<string>): Zones {
    map k | k in zones && k.zone !in unreadable :: zones[k]
  }

  /** `planRecords`, before sorting. `zones` is what could be read. */
  function Plan(ds: seq<Desired>, order: seq<Lease>, rows: Rows, zones: Zones, req: Request, names: Names): seq<Planned> {
    var items := Items(ds, req, names);
    Diffs(items, zones) + Deletes(Candidates(order, rows, req, names, Keys(items)), zones)
  }

  // ---- execution -----------------------------------------------------------------------------------------------

  predicate Has(rr: seq<Rec>, value: string) {
    exists n :: 0 <= n < |rr| && rr[n].value == value
  }

  function Remove(rr: seq<Rec>, value: string): (r: seq<Rec>)
    ensures forall x :: x in r <==> x in rr && x.value != value
  {
    if |rr| == 0 then []
    else Remove(rr[..|rr| - 1], value) + if rr[|rr| - 1].value == value then [] else [rr[|rr| - 1]]
  }

  /** The server keeps no two records with the same data (section 5 of RFC 2181). */
  function Add(rr: seq<Rec>, r: Rec): seq<Rec> {
    if Has(rr, r.value) then rr else rr + [r]
  }

  /** A write the server carries out; updating a record that is not there does nothing. */
  function Write(rr: seq<Rec>, p: Planned): seq<Rec> {
    match p.status
    case CreateRecord => Add(rr, Rec(p.item.value, CommentOf(p.item)))
    case UpdateRecord =>
      if Has(rr, p.current) then Add(Remove(rr, p.current), Rec(p.item.value, CommentOf(p.item))) else rr
    case DeleteRecord => Remove(rr, p.current)
    case AlreadyCorrect => rr
    case Conflict => rr
  }

  /** The loop of `apply`; the writes at the positions in `failed` fail without effect. */
  function Execute(zones: Zones, plan: seq<Planned>, failed: set<nat>): Zones {
    if |plan| == 0 then zones
    else
      var n := |plan| - 1;
      var before := Execute(zones, plan[..n], failed);
      if n in failed then before else before[plan[n].item.key := Write(At(before, plan[n].item.key), plan[n])]
  }

  /** `markSeen` for every live lease. */
  function MarkSeen(rows: Rows, ds: seq<Desired>, now: int): Rows {
    if |ds| == 0 then rows
    else
      var d := ds[|ds| - 1];
      MarkSeen(rows, ds[..|ds| - 1], now)[d.lease := Seen(d.host, d.mac, d.zone, now)]
  }

  /** `plan.find(…)`: the first entry with the key. */
  function FirstAt(plan: seq<Planned>, key: Key): (n: nat)
    ensures n <= |plan| && (n < |plan| ==> plan[n].item.key == key)
    ensures forall m :: 0 <= m < n ==> plan[m].item.key != key
  {
    if |plan| == 0 || plan[0].item.key == key then 0 else 1 + FirstAt(plan[1..], key)
  }

  /** The n-th entry is a delete that succeeded. */
  predicate Deleted(plan: seq<Planned>, failed: set<nat>, n: nat) {
    n < |plan| && n !in failed && plan[n].status == DeleteRecord
  }

  /** The leases whose rows `apply` removes: for every delete that succeeded, the lease of the first entry of the plan
      with the same key. */
  function RemovedLeases(plan: seq<Planned>, failed: set<nat>): set<Lease> {
    set n: nat | n < |plan| && Deleted(plan, failed, n) && FirstAt(plan, plan[n].item.key) < |plan|
      :: plan[FirstAt(plan, plan[n].item.key)].item.lease
  }

  datatype State = State(zones: Zones, rows: Rows)

  /** `plan` and `marks` are the plan and the live leases, sorted. */
  function Apply(st: State, plan: seq<Planned>, marks: seq<Desired>, now: int, failed: set<nat>): State {
    State(Execute(st.zones, plan, failed), MarkSeen(st.rows, marks, now) - RemovedLeases(plan, failed))
  }
}
