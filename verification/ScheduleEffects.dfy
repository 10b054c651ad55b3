/** What one visit of a source does to the live entries and the tables, and when it fails. */
module ScheduleEffects {
  import opened Sequences
  import opened BlockingConfig
  import opened ScheduleModel

  ghost predicate HasGroup(groups: seq<Group>, name: string) {
    exists i :: 0 <= i < |groups| && groups[i].name == name
  }

  /** All target groups exist. */
  ghost predicate Present(st: State, s: Source) {
    forall n :: n in s.groupNames ==> HasGroup(st.Groups(), n)
  }

  lemma PresentIff(st: State, s: Source)
    ensures Present(st, s) <==> GroupsPresent(st.Groups(), s.groupNames)
  {
    forall n ensures HasGroup(st.Groups(), n) <==> IndexOf(st.Groups(), n) >= 0 {
      var i := IndexOf(st.Groups(), n);
      if i >= 0 {
        assert st.Groups()[i].name == n;
      }
    }
  }

  /** An active source all of whose target groups exist. */
  ghost predicate Ready(st: State, s: Source) {
    s.Active() && Present(st, s)
  }

  ghost function Added(st: State, s: Source): set<Entry> {
    if Ready(st, s) then Wants(s) else {}
  }

  /** What a source may have left in the configuration: what it tracks or, if it tracks nothing, what it wants now. */
  ghost function Leftovers(st: State, s: Source): set<Entry> {
    if st.Tracked(s.id) == {} then Wants(s) else st.Tracked(s.id)
  }

  ghost function Stripped(st: State, s: Source, p: set<Entry>): set<Entry> {
    if s.Active() then (if Present(st, s) then st.Tracked(s.id) - Wants(s) else {})
    else if s.id in st.applied then Leftovers(st, s) - p
    else {}
  }

  ghost function TrackedAfter(st: State, s: Source): set<Entry> {
    if Ready(st, s) then Wants(s)
    else if !s.Active() && s.id in st.applied then {}
    else st.Tracked(s.id)
  }

  ghost predicate AppliedAfter(st: State, s: Source) {
    if s.Active() then Ready(st, s) || s.id in st.applied else false
  }

  /** Nothing about any source but `id` differs, and the groups keep their shape. */
  ghost predicate OnlyRowsOf(id: string, a: State, b: State) {
    && SameShape(a.Groups(), b.Groups())
    && (forall x :: x != id ==> (x in a.applied <==> x in b.applied))
    && (forall x :: x != id ==> a.Tracked(x) == b.Tracked(x) && (x in a.tracked <==> x in b.tracked))
  }

  /** Visiting `s` in state `a` gives state `b`. */
  ghost predicate Visited(a: State, s: Source, p: set<Entry>, b: State) {
    && OnlyRowsOf(s.id, a, b)
    && Live(b.Groups()) == Live(a.Groups()) - Stripped(a, s, p) + Added(a, s)
    && b.Tracked(s.id) == TrackedAfter(a, s)
    && (s.id in b.applied <==> AppliedAfter(a, s))
  }

  // ---- visits that fail ------------------------------------------------------------------------

  /** The visit has something to change in the configuration. */
  ghost predicate Rewrites(st: State, s: Source, p: set<Entry>) {
    !(Stripped(st, s, p) !! Live(st.Groups()) && Added(st, s) <= Live(st.Groups()))
  }

  /** A visit fails if a target group of an open source is missing, or a load or a write that it needs fails. */
  ghost predicate Fails(st: State, s: Source, p: set<Entry>, faults: Faults) {
    && (s.Active() || s.id in st.applied)
    && (|| (s.Active() && !Present(st, s))
        || (s.id in faults.loads && (s.Active() || Leftovers(st, s) - p != {}))
        || (s.id in faults.writes && Rewrites(st, s, p)))
  }

  /** A visit that fails changes nothing; any other has its full effect, with one write if there is something to change. */
  ghost predicate VisitedUnder(a: State, s: Source, p: set<Entry>, faults: Faults, b: State) {
    if Fails(a, s, p, faults) then b == a
    else
      && Visited(a, s, p, b)
      && b.writes == a.writes + (if Rewrites(a, s, p) then 1 else 0)
      && b.config.settings == a.config.settings
  }

  ghost function OutcomeOf(st: State, s: Source, p: set<Entry>, faults: Faults): Outcome {
    if Fails(st, s, p, faults) then Errored
    else if s.Active() then (if s.id in st.applied && !Rewrites(st, s, p) then Skipped else Applied)
    else if s.id in st.applied then Removed
    else Skipped
  }

  lemma FailedVisitChangesNothing(a: State, s: Source, p: set<Entry>)
    requires Fails(a, s, p, NO_FAULTS)
    ensures Visited(a, s, p, a)
  {
  }

  lemma FaultFreeVisit(a: State, s: Source, p: set<Entry>, b: State)
    requires VisitedUnder(a, s, p, NO_FAULTS, b)
    ensures Visited(a, s, p, b)
  {
    if Fails(a, s, p, NO_FAULTS) {
      FailedVisitChangesNothing(a, s, p);
    }
  }

  lemma ReconcileLive(groups: seq<Group>, s: Source, previous: set<Entry>)
    requires GroupsPresent(groups, s.groupNames)
    ensures Live(Reconcile(groups, Desired(s), previous)) == Live(groups) - (previous - Wants(s)) + Wants(s)
  {
    var gone, missing := previous - Wants(s), Missing(Desired(s), groups);
    var stripped := Strip(groups, gone);
    StripLive(groups, gone);
    forall t | t in missing ensures IndexOf(stripped, t.group) >= 0 {
      SameShapeSameIndex(groups, stripped, t.group);
    }
    ExtendLive(stripped, missing);
  }

  /** The configuration is rewritten exactly when a tracked entry that is no longer wanted is live, or a wanted one is
      not. */
  lemma ApplyChangesIff(groups: seq<Group>, s: Source, previous: set<Entry>)
    requires GroupsPresent(groups, s.groupNames)
    ensures Reconcile(groups, Desired(s), previous) == groups
            <==> Live(groups) !! previous - Wants(s) && Wants(s) <= Live(groups)
  {
    var gone := previous - Wants(s);
    ReconcileLive(groups, s, previous);
    if Live(groups) !! gone && Wants(s) <= Live(groups) {
      StripChangesIffLive(groups, gone);
      NothingMissing(groups, Desired(s));
      ExtendNothing(groups);
    }
  }

  lemma NothingMissing(groups: seq<Group>, desired: seq<Entry>)
    requires ToSet(desired) <= Live(groups)
    ensures Missing(desired, groups) == []
  {
    forall t ensures t !in Missing(desired, groups) {
      LiveIff(groups, t);
    }
    EmptyIffNoMember(Missing(desired, groups));
  }

  /** A removal under faults. */
  lemma RemoveEffect(st: State, s: Source, p: set<Entry>, faults: Faults)
    requires !s.Active() && s.id in st.applied
    ensures var r := RemoveSource(st, s, p, faults);
            && (r.Failed? <==> Fails(st, s, p, faults))
            && (r.Done? ==>
                  && r.state.applied == st.applied
                  && r.state.tracked == st.tracked - {s.id}
                  && SameShape(st.Groups(), r.state.Groups())
                  && Live(r.state.Groups()) == Live(st.Groups()) - Stripped(st, s, p)
                  && r.state.writes == st.writes + (if Rewrites(st, s, p) then 1 else 0)
                  && r.state.config.settings == st.config.settings)
  {
    var gone := RemovalTarget(st, s) - p;
    StripLive(st.Groups(), gone);
    StripChangesIffLive(st.Groups(), gone);
  }

  /** An apply under faults. */
  lemma ApplyEffect(st: State, s: Source, p: set<Entry>, faults: Faults)
    requires s.Active()
    ensures var r := ApplySource(st, s, faults);
            && (r.Failed? <==> Fails(st, s, p, faults))
            && (r.Done? ==>
                  && r.state.applied == st.applied
                  && r.state.tracked == SetTracked(st.tracked, s.id, Wants(s))
                  && SameShape(st.Groups(), r.state.Groups())
                  && Live(r.state.Groups()) == Live(st.Groups()) - Stripped(st, s, p) + Added(st, s)
                  && (r.changed <==> Rewrites(st, s, p))
                  && r.state.writes == st.writes + (if Rewrites(st, s, p) then 1 else 0)
                  && r.state.config.settings == st.config.settings)
  {
    PresentIff(st, s);
    if Present(st, s) {
      ReconcileLive(st.Groups(), s, st.Tracked(s.id));
      ApplyChangesIff(st.Groups(), s, st.Tracked(s.id));
    }
  }

  lemma RemovedRows(a: State, id: string, b: State)
    requires SameShape(a.Groups(), b.Groups())
    requires b.applied == a.applied - {id} && b.tracked == a.tracked - {id}
    ensures OnlyRowsOf(id, a, b) && b.Tracked(id) == {} && id !in b.applied
  {
  }

  lemma RemovalVisits(st: State, s: Source, p: set<Entry>, faults: Faults, b: State)
    requires !s.Active() && s.id in st.applied && !Fails(st, s, p, faults)
    requires b.applied == st.applied - {s.id} && b.tracked == st.tracked - {s.id}
    requires var r := RemoveSource(st, s, p, faults);
             r.Done? && b.config == r.state.config && b.writes == r.state.writes
    ensures VisitedUnder(st, s, p, faults, b)
  {
    RemoveEffect(st, s, p, faults);
    RemovedRows(st, s.id, b);
    assert Added(st, s) == {};
  }

  lemma SetTrackedRows(a: State, id: string, w: set<Entry>, b: State)
    requires SameShape(a.Groups(), b.Groups())
    requires b.applied == a.applied + {id} && b.tracked == SetTracked(a.tracked, id, w)
    ensures OnlyRowsOf(id, a, b) && b.Tracked(id) == w && id in b.applied
  {
  }

  lemma ApplyVisits(st: State, s: Source, p: set<Entry>, faults: Faults, b: State)
    requires s.Active() && !Fails(st, s, p, faults)
    requires b.applied == st.applied + {s.id} && b.tracked == SetTracked(st.tracked, s.id, Wants(s))
    requires var r := ApplySource(st, s, faults);
             r.Done? && b.config == r.state.config && b.writes == r.state.writes
    ensures VisitedUnder(st, s, p, faults, b)
  {
    ApplyEffect(st, s, p, faults);
    SetTrackedRows(st, s.id, Wants(s), b);
  }

  lemma NothingVisits(st: State, s: Source, p: set<Entry>, faults: Faults)
    requires !s.Active() && s.id !in st.applied
    ensures VisitedUnder(st, s, p, faults, st)
  {
  }

  /** One evaluation, whatever fails: it fails exactly if something that it needs fails, changes nothing then, has its full
      effect otherwise, and reports which. */
  lemma EvaluateVisits(st: State, s: Source, p: set<Entry>, faults: Faults)
    requires s.inRotation
    ensures VisitedUnder(st, s, p, faults, Evaluate(st, s, p, faults).0)
    ensures Evaluate(st, s, p, faults).1 == OutcomeOf(st, s, p, faults)
  {
    if s.open {
      ApplyEffect(st, s, p, faults);
      if !Fails(st, s, p, faults) {
        ApplyVisits(st, s, p, faults, Evaluate(st, s, p, faults).0);
      }
    } else if s.id in st.applied {
      RemoveEffect(st, s, p, faults);
      if !Fails(st, s, p, faults) {
        RemovalVisits(st, s, p, faults, Evaluate(st, s, p, faults).0);
      }
    } else {
      NothingVisits(st, s, p, faults);
    }
  }

  lemma CleanupVisits(st: State, id: string, sources: seq<Source>, p: set<Entry>, faults: Faults)
    requires id in st.applied && FindSource(sources, id) >= 0 && !InRotation(id, sources)
    ensures var s := sources[FindSource(sources, id)];
            && VisitedUnder(st, s, p, faults, Cleanup(st, id, sources, p, faults).0)
            && Cleanup(st, id, sources, p, faults).1 == OutcomeOf(st, s, p, faults)
  {
    var s := sources[FindSource(sources, id)];
    RemoveEffect(st, s, p, faults);
    if !Fails(st, s, p, faults) {
      RemovalVisits(st, s, p, faults, Cleanup(st, id, sources, p, faults).0);
    }
  }
}
