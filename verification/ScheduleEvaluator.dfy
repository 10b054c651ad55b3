/** The evaluator as the service runs it: loops over its maps, slots of the group array replaced one by one, tables
    updated after a successful write. Every method is proved against the transition functions of `ScheduleModel`. */
module ScheduleEvaluator {
  import opened Sequences
  import opened BlockingConfig
  import opened ScheduleModel

  // ---- the two passes over the configuration --------------------------------------------------

  /** `groups` with the groups named in `names` stripped. */
  ghost function StripNamed(groups: seq<Group>, gone: set<Entry>, names: set<string>): (r: seq<Group>)
    ensures SameShape(groups, r)
  {
    seq(|groups|, i requires 0 <= i < |groups| =>
      if IsFirst(groups, i) && groups[i].name in names then StripGroup(groups[i], gone) else groups[i])
  }

  lemma UntouchedGroup(g: Group, gone: set<Entry>)
    requires forall t :: t in gone ==> t.group != g.name
    ensures StripGroup(g, gone) == g
  {
    WithoutDisjoint(g.blocked, DomainsIn(gone, g.name, Block));
    WithoutDisjoint(g.allowed, DomainsIn(gone, g.name, Allow));
  }

  lemma StripNamedAll(groups: seq<Group>, gone: set<Entry>, names: set<string>)
    requires forall t :: t in gone ==> t.group in names
    ensures StripNamed(groups, gone, names) == Strip(groups, gone)
  {
    forall i | 0 <= i < |groups| && groups[i].name !in names ensures StripGroup(groups[i], gone) == groups[i] {
      UntouchedGroup(groups[i], gone);
    }
  }

  lemma StripNamedStep(groups: seq<Group>, gone: set<Entry>, names: set<string>, name: string)
    requires name !in names
    ensures var i, r := IndexOf(groups, name), StripNamed(groups, gone, names);
            && IndexOf(r, name) == i
            && (i < 0 ==> StripNamed(groups, gone, names + {name}) == r)
            && (i >= 0 ==> r[i] == groups[i]
                           && StripNamed(groups, gone, names + {name}) == r[i := StripGroup(groups[i], gone)])
  {
    var i, r, r' := IndexOf(groups, name), StripNamed(groups, gone, names), StripNamed(groups, gone, names + {name});
    SameShapeSameIndex(groups, r, name);
    forall j: nat | j < |groups| ensures r'[j] == if j == i then StripGroup(groups[i], gone) else r[j] {
      assert IsFirst(groups, j) && groups[j].name == name <==> j == i;
    }
    if i >= 0 {
      assert r' == r[i := StripGroup(groups[i], gone)];
    }
  }

  /** Removal pass: group by group, each list filtered on its own, a slot replaced only when a list got shorter. */
  method StripPass(groups: seq<Group>, gone: set<Entry>) returns (updated: seq<Group>, changed: bool)
    ensures updated == Strip(groups, gone)
    ensures changed <==> updated != groups
  {
    updated, changed := groups, false;
    var names := set t | t in gone :: t.group;
    ghost var done: set<string> := {};
    StripNamedNothing(groups, gone);
    while names != {}
      invariant updated == StripNamed(groups, gone, done)
      invariant changed <==> updated != groups
      invariant names !! done
      invariant forall t :: t in gone ==> t.group in names + done
      decreases names
    {
      var name :| name in names;
      names := names - {name};
      StripNamedStep(groups, gone, done, name);
      var i := IndexOf(updated, name);
      if i >= 0 {
        var group := updated[i];
        var nextBlocked := Without(group.blocked, DomainsIn(gone, name, Block));
        var nextAllowed := Without(group.allowed, DomainsIn(gone, name, Allow));
        WithoutLength(group.blocked, DomainsIn(gone, name, Block));
        WithoutLength(group.allowed, DomainsIn(gone, name, Allow));
        if |nextBlocked| != |group.blocked| || |nextAllowed| != |group.allowed| {
          updated := updated[i := group.(blocked := nextBlocked, allowed := nextAllowed)];
          assert updated[i] != groups[i];
          changed := true;
        } else {
          assert StripGroup(group, gone) == group;
        }
      }
      done := done + {name};
    }
    StripNamedAll(groups, gone, done);
  }

  lemma StripNamedNothing(groups: seq<Group>, gone: set<Entry>)
    ensures StripNamed(groups, gone, {}) == groups
  {
  }

  ghost function ExtendNamed(groups: seq<Group>, added: seq<Entry>, names: set<string>): (r: seq<Group>)
    ensures SameShape(groups, r)
  {
    seq(|groups|, i requires 0 <= i < |groups| =>
      if IsFirst(groups, i) && groups[i].name in names then ExtendGroup(groups[i], added) else groups[i])
  }

  lemma UnextendedGroup(g: Group, added: seq<Entry>, a: Action)
    requires forall t :: t in added ==> t.group != g.name || t.action != a
    ensures DomainsOf(added, g.name, a) == []
  {
    EmptyIffNoMember(DomainsOf(added, g.name, a));
  }

  lemma ExtendNamedAll(groups: seq<Group>, added: seq<Entry>, names: set<string>)
    requires forall t :: t in added ==> t.group in names
    ensures ExtendNamed(groups, added, names) == Extend(groups, added)
  {
    forall i | 0 <= i < |groups| && groups[i].name !in names ensures ExtendGroup(groups[i], added) == groups[i] {
      UnextendedGroup(groups[i], added, Block);
      UnextendedGroup(groups[i], added, Allow);
    }
  }

  lemma ExtendNamedStep(groups: seq<Group>, added: seq<Entry>, names: set<string>, name: string)
    requires name !in names
    ensures var i, r := IndexOf(groups, name), ExtendNamed(groups, added, names);
            && IndexOf(r, name) == i
            && (i < 0 ==> ExtendNamed(groups, added, names + {name}) == r)
            && (i >= 0 ==> r[i] == groups[i]
                           && ExtendNamed(groups, added, names + {name}) == r[i := ExtendGroup(groups[i], added)])
  {
    var i, r, r' := IndexOf(groups, name), ExtendNamed(groups, added, names), ExtendNamed(groups, added, names + {name});
    SameShapeSameIndex(groups, r, name);
    forall j: nat | j < |groups| ensures r'[j] == if j == i then ExtendGroup(groups[i], added) else r[j] {
      assert IsFirst(groups, j) && groups[j].name == name <==> j == i;
    }
    if i >= 0 {
      assert r' == r[i := ExtendGroup(groups[i], added)];
    }
  }

  /** `{ ...group, [listKey]: [...currentEntries, ...newEntries] }` */
  function Append(g: Group, action: Action, newEntries: seq<string>): Group {
    match action
    case Block => g.(blocked := g.blocked + newEntries)
    case Allow => g.(allowed := g.allowed + newEntries)
  }

  lemma AppendIsExtend(g: Group, added: seq<Entry>, action: Action)
    requires forall t :: t in added ==> t.action == action
    requires exists t :: t in added && t.group == g.name
    ensures Append(g, action, DomainsOf(added, g.name, action)) == ExtendGroup(g, added)
    ensures ExtendGroup(g, added) != g
  {
    UnextendedGroup(g, added, if action == Block then Allow else Block);
    var t :| t in added && t.group == g.name;
    assert t.domain in DomainsOf(added, g.name, action);
    assert |ExtendGroup(g, added).List(action)| > |g.List(action)|;
  }

  /** The keys of the `groupBy` map. */
  function GroupNames(ts: seq<Entry>): set<string> {
    set t | t in ts :: t.group
  }

  /** Addition pass: appends each group's new domains to the one list of the source's action. */
  method ExtendPass(groups: seq<Group>, added: seq<Entry>, action: Action) returns (updated: seq<Group>, changed: bool)
    requires forall t :: t in added ==> t.action == action && IndexOf(groups, t.group) >= 0
    ensures updated == Extend(groups, added)
    ensures changed <==> updated != groups
    ensures changed <==> added != []
  {
    updated, changed := groups, false;
    var names := GroupNames(added);
    ghost var done: set<string> := {};
    ExtendNamedNothing(groups, added);
    while names != {}
      invariant updated == ExtendNamed(groups, added, done)
      invariant changed ==> updated != groups
      invariant changed <==> done != {}
      invariant names !! done && names + done == GroupNames(added)
      decreases names
    {
      var name :| name in names;
      names := names - {name};
      ExtendNamedStep(groups, added, done, name);
      var i := IndexOf(updated, name);
      assert name in GroupNames(added);
      AppendIsExtend(groups[i], added, action);
      updated := updated[i := Append(updated[i], action, DomainsOf(added, name, action))];
      assert updated[i] != groups[i];
      changed := true;
      done := done + {name};
    }
    assert forall t :: t in added ==> t.group in GroupNames(added);
    ExtendNamedAll(groups, added, done);
    EmptyIffNoMember(added);
  }

  lemma ExtendNamedNothing(groups: seq<Group>, added: seq<Entry>)
    ensures ExtendNamed(groups, added, {}) == groups
  {
  }

  // ---- the wanted entries --------------------------------------------------------------------

  lemma DedupRowStep(all: seq<Entry>, name: string, action: Action, domains: seq<string>, j: nat)
    requires j < |domains|
    ensures var t, before, after := Entry(name, action, domains[j]), Dedup(all + Row(name, action, domains[..j])),
                                    Dedup(all + Row(name, action, domains[..j + 1]));
            after == if t in before then before else before + [t]
  {
    var t, row := Entry(name, action, domains[j]), Row(name, action, domains[..j]);
    DedupStep(all + row, t);
    assert domains[..j + 1][..j] == domains[..j];
    assert (all + row) + [t] == all + Row(name, action, domains[..j + 1]);
  }

  /** The inner loop: one group's row of keys; a key already in the map keeps its position. */
  method AddRow(desired: seq<Entry>, ghost all: seq<Entry>, name: string, action: Action, domains: seq<string>)
    returns (extended: seq<Entry>)
    requires desired == Dedup(all)
    ensures extended == Dedup(all + Row(name, action, domains))
  {
    extended := desired;
    assert all + [] == all;
    for j := 0 to |domains|
      invariant extended == Dedup(all + Row(name, action, domains[..j]))
    {
      var t := Entry(name, action, domains[j]);
      DedupRowStep(all, name, action, domains, j);
      if t !in extended {
        extended := extended + [t];
      }
    }
    assert domains[..|domains|] == domains;
  }

  /** Fills the `desired` map, group by group and domain by domain. */
  method DesiredEntries(src: Source) returns (desired: seq<Entry>)
    ensures desired == Desired(src)
  {
    var domains := ResolveDomains(src);
    desired := [];
    for i := 0 to |src.groupNames|
      invariant desired == Dedup(Product(src.groupNames[..i], src.action, domains))
    {
      ghost var all := Product(src.groupNames[..i], src.action, domains);
      desired := AddRow(desired, all, src.groupNames[i], src.action, domains);
      assert src.groupNames[..i + 1][..i] == src.groupNames[..i];
    }
    assert src.groupNames[..|src.groupNames|] == src.groupNames;
  }

  /** The additions: wanted entries that the loaded configuration does not show. */
  method MissingEntries(desired: seq<Entry>, groups: seq<Group>) returns (toAdd: seq<Entry>)
    ensures toAdd == Missing(desired, groups)
  {
    toAdd := [];
    for i := 0 to |desired|
      invariant toAdd == Missing(desired[..i], groups)
    {
      if !IsLive(desired[i], groups) {
        toAdd := toAdd + [desired[i]];
      }
      assert desired[..i + 1][..i] == desired[..i];
    }
    assert desired[..|desired|] == desired;
  }

  method ProtectedEntries(sources: seq<Source>) returns (keys: set<Entry>)
    ensures keys == Protected(sources)
  {
    keys := {};
    for i := 0 to |sources|
      invariant keys == Protected(sources[..i])
    {
      assert sources[..i + 1][..i] == sources[..i];
      if sources[i].Active() {
        var tuples := DesiredEntries(sources[i]);
        keys := keys + ToSet(tuples);
      }
    }
    assert sources[..|sources|] == sources;
  }

  lemma StripThenExtendNames(groups: seq<Group>, gone: set<Entry>, src: Source)
    requires GroupsPresent(groups, src.groupNames)
    ensures var toAdd, stripped := Missing(Desired(src), groups), Strip(groups, gone);
            forall t :: t in toAdd ==> t.action == src.action && IndexOf(stripped, t.group) >= 0
  {
    forall t | t in Missing(Desired(src), groups) ensures IndexOf(Strip(groups, gone), t.group) >= 0 {
      SameShapeSameIndex(groups, Strip(groups, gone), t.group);
    }
  }

  /** The flags of the two passes together say whether the configuration differs. */
  lemma PassesChange(groups: seq<Group>, desired: seq<Entry>, previous: set<Entry>)
    requires forall t :: t in desired ==> IndexOf(groups, t.group) >= 0
    ensures Reconcile(groups, desired, previous) != groups <==>
            Strip(groups, previous - ToSet(desired)) != groups || Missing(desired, groups) != []
  {
    var gone, toAdd := previous - ToSet(desired), Missing(desired, groups);
    if toAdd == [] {
      ExtendNothing(Strip(groups, gone));
    } else {
      var t := toAdd[0];
      assert t in toAdd;
      StripLive(groups, gone);
      forall x | x in toAdd ensures IndexOf(Strip(groups, gone), x.group) >= 0 {
        SameShapeSameIndex(groups, Strip(groups, gone), x.group);
      }
      ExtendLive(Strip(groups, gone), toAdd);
      LiveIff(groups, t);
      assert t in ToSet(toAdd);
    }
  }

  /** Both passes of an apply over the loaded groups. */
  method ReconcilePasses(groups: seq<Group>, src: Source, desired: seq<Entry>, toRemove: set<Entry>,
                         ghost previous: set<Entry>)
    returns (updated: seq<Group>, changed: bool)
    requires GroupsPresent(groups, src.groupNames) && desired == Desired(src)
    requires toRemove == previous - ToSet(desired)
    ensures updated == Reconcile(groups, desired, previous)
    ensures changed <==> updated != groups
  {
    var toAdd := MissingEntries(desired, groups);
    var stripped, removed := StripPass(groups, toRemove);
    StripThenExtendNames(groups, toRemove, src);
    var added;
    updated, added := ExtendPass(stripped, toAdd, src.action);
    changed := removed || added;
    PassesChange(groups, desired, previous);
  }

  /** Tracking is left alone when nothing is to be removed and the sizes agree: then it already is what is wanted. */
  lemma TrackingUnchanged(tracked: Tracking, id: string, previous: set<Entry>, desired: seq<Entry>)
    requires previous == (if id in tracked then tracked[id] else {}) && NoDuplicates(desired)
    requires previous - ToSet(desired) == {} && |previous| == |desired|
    ensures SetTracked(tracked, id, ToSet(desired)) == tracked
  {
    SizeOfDistinct(desired);
    forall t | t in previous ensures t in ToSet(desired) {
      assert t !in previous - ToSet(desired);
    }
    SubsetOfSameSize(previous, ToSet(desired));
  }

  lemma ApplySourceDone(st: State, src: Source, faults: Faults, updated: seq<Group>)
    requires src.id !in faults.loads && GroupsPresent(st.Groups(), src.groupNames)
    requires updated == Reconcile(st.Groups(), Desired(src), st.Tracked(src.id))
    ensures ApplySource(st, src, faults) ==
            if updated == st.Groups() then Done(st.(tracked := SetTracked(st.tracked, src.id, ToSet(Desired(src)))), false)
            else if src.id in faults.writes then Failed
            else Done(State.State(st.config.(groups := updated), st.applied,
                                  SetTracked(st.tracked, src.id, ToSet(Desired(src))), st.writes + 1), true)
  {
  }

  lemma RemoveSourceDone(st: State, src: Source, p: set<Entry>, faults: Faults, gone: set<Entry>, updated: seq<Group>)
    requires gone == RemovalTarget(st, src) - p && gone != {} && src.id !in faults.loads
    requires updated == Strip(st.Groups(), gone)
    ensures RemoveSource(st, src, p, faults) ==
            if updated == st.Groups() then Done(st.(tracked := st.tracked - {src.id}), false)
            else if src.id in faults.writes then Failed
            else Done(State.State(st.config.(groups := updated), st.applied, st.tracked - {src.id}, st.writes + 1), true)
  {
  }

  // ---- the service ---------------------------------------------------------------------------

  class Evaluator {
    // The remote node.
    var config: Config
    var writes: nat
    // The tables.
    var applied: set<string>
    var tracked: Tracking
    // Set while a tick is in progress.
    var running: bool

    ghost function State(): State
      reads this
    {
      ScheduleModel.State.State(config, applied, tracked, writes)
    }

    constructor (config: Config)
      ensures State() == ScheduleModel.State.State(config, {}, map[], 0)
      ensures !running
    {
      this.config, writes, applied, tracked, running := config, 0, {}, map[], false;
    }

    function ListAppliedEntries(id: string): set<Entry>
      reads this
      ensures ListAppliedEntries(id) == State().Tracked(id)
    {
      if id in tracked then tracked[id] else {}
    }

    /** Atomic replacement of a source's tracked rows. */
    method SetAppliedEntries(id: string, entries: set<Entry>)
      modifies this`tracked
      ensures tracked == SetTracked(old(tracked), id, entries)
    {
      tracked := if entries == {} then tracked - {id} else tracked[id := entries];
    }

    method ClearAppliedEntries(id: string)
      modifies this`tracked
      ensures tracked == old(tracked) - {id}
    {
      tracked := tracked - {id};
    }

    /** A write that changes the configuration; `changed` is the callers' flag. */
    method SetConfig(groups: seq<Group>)
      modifies this`config, this`writes
      ensures config == old(config).(groups := groups) && writes == old(writes) + 1
    {
      config := config.(groups := groups);
      writes := writes + 1;
    }

    /** Applies one source: fails without effect, or leaves state and flag as `ApplySource` says. */
    method ApplyToNode(src: Source, faults: Faults) returns (ok: bool, changed: bool)
      modifies this`config, this`writes, this`tracked
      ensures var r := ApplySource(old(State()), src, faults);
              match r
              case Failed => !ok && State() == old(State())
              case Done(st, c) => ok && changed == c && State() == st
    {
      ok, changed := false, false;
      if src.id in faults.loads {
        return;
      }
      var groups := config.groups;
      if !GroupsPresent(groups, src.groupNames) {
        return;
      }
      var desired := DesiredEntries(src);
      var previous := ListAppliedEntries(src.id);
      var toRemove := previous - ToSet(desired);
      var updated;
      updated, changed := ReconcilePasses(groups, src, desired, toRemove, previous);
      ApplySourceDone(State(), src, faults, updated);
      if changed {
        if src.id in faults.writes {
          return;
        }
        SetConfig(updated);
      }
      DedupDistinct(Product(src.groupNames, src.action, ResolveDomains(src)));
      if toRemove == {} && |previous| == |desired| {
        TrackingUnchanged(tracked, src.id, previous, desired);
      } else {
        SetAppliedEntries(src.id, ToSet(desired));
      }
      ok := true;
    }

    /** Removes one source: strips what it tracks, or what it would want if nothing is tracked, minus what active
        sources want; tracking is cleared only after a successful or unnecessary write. */
    method RemoveFromNode(src: Source, protectedEntries: set<Entry>, faults: Faults) returns (ok: bool)
      modifies this`config, this`writes, this`tracked
      ensures var r := RemoveSource(old(State()), src, protectedEntries, faults);
              match r
              case Failed => !ok && State() == old(State())
              case Done(st, _) => ok && State() == st
    {
      ok := false;
      var removal := ListAppliedEntries(src.id);
      if removal == {} {
        var resolved := DesiredEntries(src);
        removal := ToSet(resolved);
        if removal == {} {
          assert tracked - {src.id} == tracked;
          ok := true;
          return;
        }
      }
      removal := removal - protectedEntries;
      if removal == {} {
        ClearAppliedEntries(src.id);
        ok := true;
        return;
      }
      if src.id in faults.loads {
        return;
      }
      var updated, changed := StripPass(config.groups, removal);
      RemoveSourceDone(State(), src, protectedEntries, faults, removal, updated);
      if changed {
        if src.id in faults.writes {
          return;
        }
        SetConfig(updated);
      }
      ClearAppliedEntries(src.id);
      ok := true;
    }

    method MarkApplied(id: string)
      modifies this`applied
      ensures applied == old(applied) + {id}
    {
      applied := applied + {id};
    }

    method MarkRemoved(id: string)
      modifies this`applied
      ensures applied == old(applied) - {id}
    {
      applied := applied - {id};
    }

    /** One source in rotation. */
    method EvaluateSource(src: Source, protectedEntries: set<Entry>, faults: Faults) returns (outcome: Outcome)
      modifies this`config, this`writes, this`tracked, this`applied
      ensures (State(), outcome) == Evaluate(old(State()), src, protectedEntries, faults)
    {
      var isCurrentlyApplied := src.id in applied;
      if !src.open && !isCurrentlyApplied {
        return Skipped;
      }
      if src.open {
        var ok, changed := ApplyToNode(src, faults);
        if !ok {
          return Errored;
        }
        MarkApplied(src.id);
        outcome := if !isCurrentlyApplied || changed then Applied else Skipped;
      } else {
        var ok := RemoveFromNode(src, protectedEntries, faults);
        if !ok {
          return Errored;
        }
        MarkRemoved(src.id);
        ClearAppliedEntries(src.id);
        outcome := Removed;
      }
    }

    /** One stale row. */
    method CleanupRow(id: string, sources: seq<Source>, protectedEntries: set<Entry>, faults: Faults)
      returns (outcome: Outcome)
      modifies this`config, this`writes, this`tracked, this`applied
      ensures (State(), outcome) == Cleanup(old(State()), id, sources, protectedEntries, faults)
    {
      var i := FindSource(sources, id);
      if i < 0 {
        MarkRemoved(id);
        return Skipped;
      }
      var ok := RemoveFromNode(sources[i], protectedEntries, faults);
      if !ok {
        return Errored;
      }
      MarkRemoved(id);
      outcome := Removed;
    }

    /** The rows of `dns_schedule_state`, in whatever order the table yields them. */
    method ListAppliedState() returns (rows: seq<string>)
      ensures Enumerates(rows, applied)
    {
      rows := [];
      var rest := applied;
      while rest != {}
        invariant rest <= applied && Enumerates(rows, applied - rest)
        decreases rest
      {
        var id :| id in rest;
        rest := rest - {id};
        rows := rows + [id];
      }
    }

    /** One tick: refused while another is in progress; otherwise stale rows first, then every source in rotation. */
    method RunEvaluation(sources: seq<Source>, faults: Faults) returns (accepted: bool, ghost rows: seq<string>)
      modifies this
      ensures accepted == !old(running) && running == old(running)
      ensures !accepted ==> State() == old(State())
      ensures accepted ==> Enumerates(rows, old(applied)) && State() == Tick(old(State()), sources, rows, faults)
    {
      rows := [];
      if running {
        return false, rows;
      }
      running := true;
      var protectedEntries := ProtectedEntries(sources);
      var listed := ListAppliedState();
      var stale := StaleRows(listed, sources);
      ghost var st := State();
      for i := 0 to |stale|
        invariant running
        invariant State() == CleanupAll(st, stale[..i], sources, protectedEntries, faults)
      {
        var _ := CleanupRow(stale[i], sources, protectedEntries, faults);
        assert stale[..i + 1][..i] == stale[..i];
      }
      assert stale[..|stale|] == stale;
      var active := Rotation(sources);
      ghost var cleaned := State();
      for i := 0 to |active|
        invariant running
        invariant State() == EvaluateAll(cleaned, active[..i], protectedEntries, faults)
      {
        var _ := EvaluateSource(active[i], protectedEntries, faults);
        assert active[..i + 1][..i] == active[..i];
      }
      assert active[..|active|] == active;
      running := false;
      return true, listed;
    }
  }
}
