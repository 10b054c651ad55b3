/** The DNS schedule evaluator as a transition function over one write target.

    A source is a schedule or a temporary override. The state is the remote Advanced Blocking
    configuration, the rows of `dns_schedule_state` (which sources count as applied) and the rows of
    `dns_schedule_applied_entries` (which entries each source tracks). */
module ScheduleModel {
  import opened Sequences
  import opened BlockingConfig

  /** `inRotation`: the schedule is enabled, or the override is enabled and unexpired.
      `open`: the window is open now (always so for an override).
      `groupEntries`: the exact entries of the Domain Groups the source names, as they are now. */
  datatype Source = Source(id: string, inRotation: bool, open: bool, groupNames: seq<string>, action: Action,
                           domainEntries: seq<string>, groupEntries: seq<string>)
  {
    predicate Active() { inRotation && open }
  }

  /** The rows of `dns_schedule_applied_entries` by source; a source without rows has no key. */
  type Tracking = m: map<string, set<Entry>> | forall id | id in m :: m[id] != {}

  /** `writes` counts the configuration writes sent to the remote node. */
  datatype State = State(config: Config, applied: set<string>, tracked: Tracking, writes: nat)
  {
    function Tracked(id: string): set<Entry> {
      if id in tracked then tracked[id] else {}
    }

    function Groups(): seq<Group> { config.groups }
  }

  /** Sources whose remote load, or remote write, fails during a tick. A failed call has no effect. */
  datatype Faults = Faults(loads: set<string>, writes: set<string>)

  const NO_FAULTS := Faults({}, {})

  datatype Result = Done(state: State, changed: bool) | Failed

  datatype Outcome = Applied | Removed | Skipped | Errored

  function Ids(sources: seq<Source>): set<string> {
    set s | s in sources :: s.id
  }

  // ---- what a source wants -------------------------------------------------------------------

  function Row(name: string, a: Action, domains: seq<string>): (r: seq<Entry>)
    ensures forall t :: t in r <==> t.group == name && t.action == a && t.domain in domains
  {
    if domains == [] then []
    else
      var init, last := domains[..|domains| - 1], domains[|domains| - 1];
      assert domains == init + [last];
      Row(name, a, init) + [Entry(name, a, last)]
  }

  function Product(names: seq<string>, a: Action, domains: seq<string>): (r: seq<Entry>)
    ensures forall t :: t in r <==> t.group in names && t.action == a && t.domain in domains
  {
    if names == [] then []
    else
      var init, last := names[..|names| - 1], names[|names| - 1];
      assert names == init + [last];
      Product(init, a, domains) + Row(last, a, domains)
  }

  function ResolveDomains(src: Source): seq<string> {
    Dedup(src.domainEntries + src.groupEntries)
  }

  function Desired(src: Source): (r: seq<Entry>)
    ensures forall t :: t in r ==> t.group in src.groupNames && t.action == src.action
  {
    Dedup(Product(src.groupNames, src.action, ResolveDomains(src)))
  }

  function Wants(src: Source): set<Entry> {
    ToSet(Desired(src))
  }

  /** Everything some active source wants, whether or not that source can be applied. */
  function Protected(sources: seq<Source>): set<Entry> {
    if sources == [] then {}
    else
      var last := sources[|sources| - 1];
      Protected(sources[..|sources| - 1]) + (if last.Active() then Wants(last) else {})
  }

  ghost predicate ActivelyWanted(sources: seq<Source>, t: Entry) {
    exists s :: s in sources && s.Active() && t in Wants(s)
  }

  lemma {:induction false} ProtectedIff(sources: seq<Source>, t: Entry)
    ensures t in Protected(sources) <==> ActivelyWanted(sources, t)
  {
    if sources != [] {
      var init, last := sources[..|sources| - 1], sources[|sources| - 1];
      ProtectedIff(init, t);
      InitLast(sources);
      assert last in sources && forall s :: s in sources <==> s in init || s == last;
    }
  }

  // ---- the tracking table --------------------------------------------------------------------

  function SetTracked(tracked: Tracking, id: string, entries: set<Entry>): Tracking {
    if entries == {} then tracked - {id} else tracked[id := entries]
  }

  // ---- apply ---------------------------------------------------------------------------------

  /** The wanted entries absent from the live configuration, in order. */
  function Missing(desired: seq<Entry>, groups: seq<Group>): (r: seq<Entry>)
    ensures forall t :: t in r <==> t in desired && !IsLive(t, groups)
  {
    if desired == [] then []
    else
      var init, last := desired[..|desired| - 1], desired[|desired| - 1];
      assert desired == init + [last];
      Missing(init, groups) + (if IsLive(last, groups) then [] else [last])
  }

  predicate GroupsPresent(groups: seq<Group>, names: seq<string>) {
    forall n | n in names :: IndexOf(groups, n) >= 0
  }

  function Reconcile(groups: seq<Group>, desired: seq<Entry>, previous: set<Entry>): (r: seq<Group>)
    ensures SameShape(groups, r)
  {
    Extend(Strip(groups, previous - ToSet(desired)), Missing(desired, groups))
  }

  function WriteConfig(st: State, groups: seq<Group>): State {
    if groups == st.Groups() then st
    else st.(config := st.config.(groups := groups), writes := st.writes + 1)
  }

  function ApplySource(st: State, src: Source, faults: Faults): Result {
    if src.id in faults.loads || !GroupsPresent(st.Groups(), src.groupNames) then Failed
    else
      var groups := Reconcile(st.Groups(), Desired(src), st.Tracked(src.id));
      var changed := groups != st.Groups();
      if changed && src.id in faults.writes then Failed
      else Done(WriteConfig(st, groups).(tracked := SetTracked(st.tracked, src.id, Wants(src))), changed)
  }

  // ---- remove --------------------------------------------------------------------------------

  /** What a removal aims at: the tracked entries or, when nothing is tracked, the current definition. */
  function RemovalTarget(st: State, src: Source): set<Entry> {
    if st.Tracked(src.id) != {} then st.Tracked(src.id) else Wants(src)
  }

  function RemoveSource(st: State, src: Source, protectedEntries: set<Entry>, faults: Faults): Result {
    var gone := RemovalTarget(st, src) - protectedEntries;
    if gone == {} then Done(st.(tracked := st.tracked - {src.id}), false)
    else if src.id in faults.loads then Failed
    else
      var groups := Strip(st.Groups(), gone);
      var changed := groups != st.Groups();
      if changed && src.id in faults.writes then Failed
      else Done(WriteConfig(st, groups).(tracked := st.tracked - {src.id}), changed)
  }

  // ---- one source ----------------------------------------------------------------------------

  function Evaluate(st: State, src: Source, protectedEntries: set<Entry>, faults: Faults): (State, Outcome) {
    var isApplied := src.id in st.applied;
    if !src.open && !isApplied then (st, Skipped)
    else if src.open then
      match ApplySource(st, src, faults)
      case Failed => (st, Errored)
      case Done(st', changed) =>
        (st'.(applied := st'.applied + {src.id}), if !isApplied || changed then Applied else Skipped)
    else
      match RemoveSource(st, src, protectedEntries, faults)
      case Failed => (st, Errored)
      case Done(st', _) => (st'.(applied := st'.applied - {src.id}, tracked := st'.tracked - {src.id}), Removed)
  }

  function EvaluateAll(st: State, sources: seq<Source>, protectedEntries: set<Entry>, faults: Faults): State {
    if sources == [] then st
    else
      var st' := EvaluateAll(st, sources[..|sources| - 1], protectedEntries, faults);
      Evaluate(st', sources[|sources| - 1], protectedEntries, faults).0
  }

  // ---- stale cleanup -------------------------------------------------------------------------

  predicate InRotation(id: string, sources: seq<Source>) {
    exists i | 0 <= i < |sources| :: sources[i].id == id && sources[i].inRotation
  }

  function FindSource(sources: seq<Source>, id: string): (i: int)
    ensures -1 <= i < |sources|
    ensures i >= 0 ==> sources[i].id == id
    ensures i < 0 ==> forall j :: 0 <= j < |sources| ==> sources[j].id != id
  {
    if sources == [] then -1
    else if sources[|sources| - 1].id == id then |sources| - 1
    else FindSource(sources[..|sources| - 1], id)
  }

  /** One applied row whose source is out of rotation or gone. */
  function Cleanup(st: State, id: string, sources: seq<Source>, protectedEntries: set<Entry>, faults: Faults)
    : (State, Outcome)
  {
    var i := FindSource(sources, id);
    if i < 0 then (st.(applied := st.applied - {id}), Skipped)
    else
      match RemoveSource(st, sources[i], protectedEntries, faults)
      case Failed => (st, Errored)
      case Done(st', _) => (st'.(applied := st'.applied - {id}), Removed)
  }

  function CleanupAll(st: State, rows: seq<string>, sources: seq<Source>, protectedEntries: set<Entry>, faults: Faults)
    : State
  {
    if rows == [] then st
    else
      var st' := CleanupAll(st, rows[..|rows| - 1], sources, protectedEntries, faults);
      Cleanup(st', rows[|rows| - 1], sources, protectedEntries, faults).0
  }

  function StaleRows(rows: seq<string>, sources: seq<Source>): (r: seq<string>)
    ensures forall id :: id in r <==> id in rows && !InRotation(id, sources)
  {
    if rows == [] then []
    else
      var init, last := rows[..|rows| - 1], rows[|rows| - 1];
      assert rows == init + [last];
      StaleRows(init, sources) + (if InRotation(last, sources) then [] else [last])
  }

  function Rotation(sources: seq<Source>): (r: seq<Source>)
    ensures forall s :: s in r <==> s in sources && s.inRotation
  {
    if sources == [] then []
    else
      var init, last := sources[..|sources| - 1], sources[|sources| - 1];
      assert sources == init + [last];
      Rotation(init) + (if last.inRotation then [last] else [])
  }

  // ---- one tick ------------------------------------------------------------------------------

  /** The table returns its rows in some order, each once. */
  ghost predicate Enumerates(rows: seq<string>, ids: set<string>) {
    NoDuplicates(rows) && forall id :: id in rows <==> id in ids
  }

  function Tick(st: State, sources: seq<Source>, rows: seq<string>, faults: Faults): State {
    var protectedEntries := Protected(sources);
    var cleaned := CleanupAll(st, StaleRows(rows, sources), sources, protectedEntries, faults);
    EvaluateAll(cleaned, Rotation(sources), protectedEntries, faults)
  }
}
