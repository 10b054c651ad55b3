/** Domain Groups: what the bound groups materialise to, and the three passes that bring it into a configuration. */
module DomainGroupModel {
  import opened Strings
  import opened Options
  import opened Sequences

  datatype Action = Allow | Block
  datatype MatchType = Exact | Regex

  // ---- Advanced Blocking groups ----------------------------------------------------------------

  /** `settings` stands for every other field of the group object. */
  datatype Group = Group(name: string, allowed: seq<string>, blocked: seq<string>, allowedRegex: seq<string>,
                         blockedRegex: seq<string>, settings: map<string, string>)
  {
    function List(a: Action, m: MatchType): seq<string> {
      match (a, m)
      case (Allow, Exact) => allowed
      case (Block, Exact) => blocked
      case (Allow, Regex) => allowedRegex
      case (Block, Regex) => blockedRegex
    }

    function WithLists(a: Action, exact: seq<string>, regex: seq<string>): Group {
      match a
      case Allow => this.(allowed := exact, allowedRegex := regex)
      case Block => this.(blocked := exact, blockedRegex := regex)
    }
  }

  function EmptyGroup(name: string): Group {
    Group(name, [], [], [], [], map[])
  }

  /** `groupByNameLc.get(key)`: the last group whose lower-cased name is `key`, or -1. */
  function IndexOf(groups: seq<Group>, key: string): (i: int)
    ensures -1 <= i < |groups|
    ensures i >= 0 ==> Lower(groups[i].name) == key
  {
    if groups == [] then -1
    else if Lower(groups[|groups| - 1].name) == key then |groups| - 1
    else IndexOf(groups[..|groups| - 1], key)
  }

  function Find(groups: seq<Group>, key: string): Option<Group> {
    var i := IndexOf(groups, key);
    if i < 0 then None else Some(groups[i])
  }

  // ---- tracking --------------------------------------------------------------------------------

  datatype Pair = Pair(key: string, action: Action)

  /** The rows of `domain_group_applied_entries` by (lower-cased group name, action); no key without rows. */
  type Tracking = m: map<Pair, set<string>> | forall p | p in m :: m[p] != {}

  function Tracked(t: Tracking, p: Pair): set<string> {
    if p in t then t[p] else {}
  }

  // ---- first pass: materialised groups -----------------------------------------------------------

  /** One side of a merge. An owned pair first gives up what was tracked for it; an unowned one is only added to. */
  function MergeList(list: seq<string>, owned: bool, tracked: set<string>, materialized: seq<string>): seq<string> {
    if owned then Dedup(Without(list, tracked) + materialized) else Dedup(list + materialized)
  }

  function MergeSide(g: Group, b: Group, key: string, a: Action, owned: set<Pair>, t: Tracking): Group {
    var p := Pair(key, a);
    g.WithLists(a,
      MergeList(g.List(a, Exact), p in owned, Tracked(t, p), b.List(a, Exact)),
      MergeList(g.List(a, Regex), p in owned, Tracked(t, p), b.List(a, Regex)))
  }

  /** `b` carries the four materialised lists of one group name. */
  function Merge(g: Group, b: Group, owned: set<Pair>, t: Tracking): Group {
    var key := Lower(b.name);
    MergeSide(MergeSide(g, b, key, Allow, owned, t), b, key, Block, owned, t)
  }

  function Created(b: Group): Group {
    EmptyGroup(b.name).(allowed := b.allowed, blocked := b.blocked, allowedRegex := b.allowedRegex,
                        blockedRegex := b.blockedRegex)
  }

  function MergeInto(groups: seq<Group>, b: Group, owned: set<Pair>, t: Tracking): seq<Group> {
    var i := IndexOf(groups, Lower(b.name));
    if i < 0 then groups + [Created(b)] else groups[i := Merge(groups[i], b, owned, t)]
  }

  function FirstPass(groups: seq<Group>, buckets: seq<Group>, owned: set<Pair>, t: Tracking): seq<Group> {
    if buckets == [] then groups
    else MergeInto(FirstPass(groups, buckets[..|buckets| - 1], owned, t), buckets[|buckets| - 1], owned, t)
  }

  // ---- second and third pass: pairs that contribute nothing any more ------------------------------

  function DropSide(g: Group, a: Action, tracked: set<string>): Group {
    g.WithLists(a, Without(g.List(a, Exact), tracked), Without(g.List(a, Regex), tracked))
  }

  function DropFrom(groups: seq<Group>, p: Pair, t: Tracking): seq<Group> {
    var i := IndexOf(groups, p.key);
    if Tracked(t, p) == {} || i < 0 then groups else groups[i := DropSide(groups[i], p.action, Tracked(t, p))]
  }

  function DropAll(groups: seq<Group>, pairs: seq<Pair>, t: Tracking): seq<Group> {
    if pairs == [] then groups
    else DropFrom(DropAll(groups, pairs[..|pairs| - 1], t), pairs[|pairs| - 1], t)
  }

  /** Owned pairs whose group name was not processed in the first pass. */
  function Unprocessed(owned: seq<Pair>, processed: set<string>): (r: seq<Pair>)
    ensures forall p :: p in r <==> p in owned && p.key !in processed
  {
    if owned == [] then []
    else
      var init, last := owned[..|owned| - 1], owned[|owned| - 1];
      assert owned == init + [last];
      Unprocessed(init, processed) + (if last.key in processed then [] else [last])
  }

  /** Tracked pairs no longer owned by any binding. */
  function Unbound(tracked: seq<Pair>, owned: set<Pair>): (r: seq<Pair>)
    ensures forall p :: p in r <==> p in tracked && p !in owned
  {
    if tracked == [] then []
    else
      var init, last := tracked[..|tracked| - 1], tracked[|tracked| - 1];
      assert tracked == init + [last];
      Unbound(init, owned) + (if last in owned then [] else [last])
  }

  function Keys(buckets: seq<Group>): set<string> {
    set b | b in buckets :: Lower(b.name)
  }

  /** `trackedPairs` are the distinct pairs of the tracking table, in the order the table yields them. */
  function ApplyToGroups(groups: seq<Group>, buckets: seq<Group>, owned: seq<Pair>, t: Tracking,
                         trackedPairs: seq<Pair>): seq<Group>
  {
    var first := FirstPass(groups, buckets, ToSet(owned), t);
    var second := DropAll(first, Unprocessed(owned, Keys(buckets)), t);
    DropAll(second, Unbound(trackedPairs, ToSet(owned)), t)
  }

  // ---- the tracking commit -----------------------------------------------------------------------

  datatype Write = Write(pair: Pair, values: seq<string>)

  /** Both pairs of one bucket, as far as they are owned. */
  function BucketWrites(b: Group, owned: set<Pair>): seq<Write> {
    var key := Lower(b.name);
    (if Pair(key, Allow) in owned then [Write(Pair(key, Allow), b.allowed + b.allowedRegex)] else []) +
    (if Pair(key, Block) in owned then [Write(Pair(key, Block), b.blocked + b.blockedRegex)] else [])
  }

  function FirstWrites(buckets: seq<Group>, owned: set<Pair>): seq<Write> {
    if buckets == [] then []
    else FirstWrites(buckets[..|buckets| - 1], owned) + BucketWrites(buckets[|buckets| - 1], owned)
  }

  function EmptyWrites(pairs: seq<Pair>): (r: seq<Write>)
    ensures |r| == |pairs| && forall i :: 0 <= i < |r| ==> r[i] == Write(pairs[i], [])
  {
    seq(|pairs|, i requires 0 <= i < |pairs| => Write(pairs[i], []))
  }

  function Writes(buckets: seq<Group>, owned: seq<Pair>): seq<Write> {
    FirstWrites(buckets, ToSet(owned)) + EmptyWrites(Unprocessed(owned, Keys(buckets)))
  }

  function AddRow(t: Tracking, p: Pair, value: string): Tracking {
    t[p := Tracked(t, p) + {value}]
  }

  datatype Commit = Committed(t: Tracking) | Broken(t: Tracking)

  /** Inserts rows one by one; a row that exists already breaks the commit, leaving what was done so far. */
  function InsertRows(t: Tracking, p: Pair, values: seq<string>): Commit {
    if values == [] then Committed(t)
    else
      match InsertRows(t, p, values[..|values| - 1])
      case Broken(t') => Broken(t')
      case Committed(t') =>
        var v := values[|values| - 1];
        if v in Tracked(t', p) then Broken(t') else Committed(AddRow(t', p, v))
  }

  function CommitWrites(t: Tracking, writes: seq<Write>): Commit {
    if writes == [] then Committed(t)
    else
      match CommitWrites(t, writes[..|writes| - 1])
      case Broken(t') => Broken(t')
      case Committed(t') =>
        var w := writes[|writes| - 1];
        InsertRows(t' - {w.pair}, w.pair, w.values)
  }

  function CommitAll(t: Tracking, writes: seq<Write>, deletes: seq<Pair>): Commit {
    match CommitWrites(t, writes)
    case Broken(t') => Broken(t')
    case Committed(t') => Committed(t' - ToSet(deletes))
  }
}
