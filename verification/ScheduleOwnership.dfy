/** Who answers for a live entry: a window restores what it found, and entries handed over are not orphaned. */
module ScheduleOwnership {
  import opened Sequences
  import opened BlockingConfig
  import opened ScheduleModel
  import opened ScheduleEffects
  import opened ScheduleTrace
  import opened ScheduleTick
  import opened ScheduleConvergence
  import opened ScheduleRuns

  // ---- opening and closing a window ------------------------------------------------------------

  lemma ReconcileThenStrip(groups: seq<Group>, desired: seq<Entry>, gone: set<Entry>)
    requires Live(groups) !! gone && ToSet(desired) - gone <= Live(groups)
    ensures Strip(Reconcile(groups, desired, {}), gone) == groups
  {
    var missing := Missing(desired, groups);
    StripChangesIffLive(groups, {});
    assert {} - ToSet(desired) == {};
    forall t | t in missing ensures t in gone {
      assert t in ToSet(desired);
      LiveIff(groups, t);
    }
    StripExtended(groups, missing, gone);
    StripChangesIffLive(groups, gone);
  }

  lemma ReconcileThenStripIff(groups: seq<Group>, s: Source, gone: set<Entry>)
    requires GroupsPresent(groups, s.groupNames) && gone <= Wants(s)
    ensures Strip(Reconcile(groups, Desired(s), {}), gone) == groups
            <==> Live(groups) !! gone && Wants(s) - gone <= Live(groups)
  {
    ReconcileLive(groups, s, {});
    StripLive(Reconcile(groups, Desired(s), {}), gone);
    if Live(groups) !! gone && Wants(s) - gone <= Live(groups) {
      ReconcileThenStrip(groups, Desired(s), gone);
    }
  }

  /** In terms of the entries that the removal spares. */
  lemma ReconcileThenSpareIff(groups: seq<Group>, s: Source, p: set<Entry>)
    requires GroupsPresent(groups, s.groupNames)
    ensures Strip(Reconcile(groups, Desired(s), {}), Wants(s) - p) == groups
            <==> Live(groups) !! Wants(s) - p && Wants(s) * p <= Live(groups)
  {
    ReconcileThenStripIff(groups, s, Wants(s) - p);
    assert Wants(s) - (Wants(s) - p) == Wants(s) * p;
  }

  lemma AppliedConfig(st: State, s: Source)
    requires Present(st, s) && st.Tracked(s.id) == {}
    ensures ApplySource(st, s, NO_FAULTS).state.config == st.config.(groups := Reconcile(st.Groups(), Desired(s), {}))
  {
    PresentIff(st, s);
    assert {} - ToSet(Desired(s)) == {};
  }

  lemma RemovedConfig(st: State, s: Source, p: set<Entry>, gone: set<Entry>)
    requires gone == RemovalTarget(st, s) - p
    ensures RemoveSource(st, s, p, NO_FAULTS).state.config == st.config.(groups := Strip(st.Groups(), gone))
  {
    StripChangesIffLive(st.Groups(), {});
  }

  lemma AppliedTarget(st: State, s: Source, s': Source)
    requires Present(st, s) && Wants(s) != {} && s'.id == s.id
    ensures RemovalTarget(ApplySource(st, s, NO_FAULTS).state, s') == Wants(s)
  {
    PresentIff(st, s);
  }

  lemma ClosedConfig(st: State, s: Source, s': Source, p: set<Entry>)
    requires Present(st, s) && st.Tracked(s.id) == {} && Wants(s) != {} && s'.id == s.id
    ensures var after := ApplySource(st, s, NO_FAULTS).state;
            RemoveSource(after, s', p, NO_FAULTS).state.config ==
            st.config.(groups := Strip(Reconcile(st.Groups(), Desired(s), {}), Wants(s) - p))
  {
    AppliedTarget(st, s, s');
    AppliedConfig(st, s);
    RemovedConfig(ApplySource(st, s, NO_FAULTS).state, s', p, Wants(s) - p);
  }

  /** A source that tracks nothing is applied and later removed, possibly redefined in between, while other active
      sources protect `p`. The configuration comes back, list for list, exactly when nothing the removal takes was live
      before and everything it spares was: an entry somebody else had put there is taken for the source's own and
      removed with it, and an entry another active source shares stays behind. */
  lemma OpenCloseRestoresIff(st: State, s: Source, s': Source, p: set<Entry>)
    requires Present(st, s) && st.Tracked(s.id) == {} && Wants(s) != {} && s'.id == s.id
    ensures var after := ApplySource(st, s, NO_FAULTS).state;
            var closed := RemoveSource(after, s', p, NO_FAULTS).state;
            closed.config == st.config <==> Live(st.Groups()) !! Wants(s) - p && Wants(s) * p <= Live(st.Groups())
  {
    ClosedConfig(st, s, s', p);
    PresentIff(st, s);
    ReconcileThenSpareIff(st.Groups(), s, p);
  }

  // ---- orphans -------------------------------------------------------------------------------

  /** Every entry of `owned` (written by the evaluator and live ever since) is tracked by some source. */
  ghost predicate NoOrphans(owned: set<Entry>, st: State) {
    forall t :: t in owned ==> t in Live(st.Groups()) && exists id :: t in st.Tracked(id)
  }

  ghost function OwnedAfter(owned: set<Entry>, st: State, st': State): set<Entry> {
    (owned + (Live(st'.Groups()) - Live(st.Groups()))) * Live(st'.Groups())
  }

  ghost predicate TrackedApplied(st: State) {
    forall id :: st.Tracked(id) != {} ==> id in st.applied
  }

  /** Only inactive sources track `t`; an active source wants it, so it is protected; but no source that wants it can
      be applied, because target groups are missing. */
  ghost predicate Abandoned(st: State, sources: seq<Source>, t: Entry) {
    && t in Protected(sources)
    && (forall s :: s in sources && t in st.Tracked(s.id) ==> !s.Active())
    && (forall s :: s in sources ==> t !in Added(st, s))
  }

  lemma AbandonedStaysLive(st: State, sources: seq<Source>, rows: seq<string>, t: Entry)
    requires WellFormed(st, sources) && Enumerates(rows, st.applied)
    requires t in Live(st.Groups()) && Abandoned(st, sources, t)
    ensures t in Live(Tick(st, sources, rows, NO_FAULTS).Groups())
  {
    var p := Protected(sources);
    var fx := Effects(st, sources, p);
    TickLive(st, sources, rows, t);
    forall j | 0 <= j < |fx| ensures t !in fx[j].stripped {
      assert sources[j] in sources;
      AbandonedNotStripped(st, sources[j], p, t);
    }
    assert SurvivesFrom(t, fx, 0);
  }

  lemma AbandonedNotStripped(st: State, s: Source, p: set<Entry>, t: Entry)
    requires t in p && (t in st.Tracked(s.id) ==> !s.Active())
    ensures t !in Stripped(st, s, p)
  {
  }

  lemma AbandonedLosesTracking(st: State, s: Source, st': State, t: Entry)
    requires RowsAfter(st, s, st') && TrackedApplied(st)
    requires t in st.Tracked(s.id) ==> !s.Active()
    requires t !in Added(st, s)
    ensures t !in st'.Tracked(s.id)
  {
  }

  lemma AbandonedIsOrphaned(st: State, sources: seq<Source>, rows: seq<string>, t: Entry)
    requires WellFormed(st, sources) && Enumerates(rows, st.applied) && TrackedApplied(st)
    requires t in Live(st.Groups()) && Abandoned(st, sources, t)
    ensures var st' := Tick(st, sources, rows, NO_FAULTS);
            t in Live(st'.Groups()) && forall id :: t !in st'.Tracked(id)
  {
    var st' := Tick(st, sources, rows, NO_FAULTS);
    AbandonedStaysLive(st, sources, rows, t);
    TickRows(st, sources, rows);
    forall id ensures t !in st'.Tracked(id) {
      if id in Ids(sources) {
        var s :| s in sources && s.id == id;
        AbandonedLosesTracking(st, s, st', t);
      } else {
        assert st.Tracked(id) == {};
      }
    }
  }

  lemma KeptIsTracked(st: State, sources: seq<Source>, rows: seq<string>, t: Entry, u: Source)
    requires WellFormed(st, sources) && Enumerates(rows, st.applied)
    requires u in sources && t in st.Tracked(u.id) && u.id in st.applied
    requires !Abandoned(st, sources, t)
    requires t in Live(Tick(st, sources, rows, NO_FAULTS).Groups())
    ensures exists id :: t in Tick(st, sources, rows, NO_FAULTS).Tracked(id)
  {
    var st' := Tick(st, sources, rows, NO_FAULTS);
    TickRows(st, sources, rows);
    if s :| s in sources && t in Added(st, s) {
      AddedIsTracked(st, s, st', t);
    } else if s :| s in sources && t in st.Tracked(s.id) && s.Active() && !Present(st, s) {
      assert RowsAfter(st, s, st');
      assert t in st'.Tracked(s.id);
    } else {
      NotAddedNotLive(st, sources, rows, t, u);
    }
  }

  lemma NotAddedNotLive(st: State, sources: seq<Source>, rows: seq<string>, t: Entry, u: Source)
    requires WellFormed(st, sources) && Enumerates(rows, st.applied)
    requires u in sources && t in st.Tracked(u.id) && u.id in st.applied && !Abandoned(st, sources, t)
    requires forall s :: s in sources ==> t !in Added(st, s)
    requires forall s :: s in sources && t in st.Tracked(s.id) && s.Active() ==> Present(st, s)
    ensures t !in Live(Tick(st, sources, rows, NO_FAULTS).Groups())
  {
    var p := Protected(sources);
    var fx := Effects(st, sources, p);
    TickLive(st, sources, rows, t);
    forall k | 0 <= k < |fx| ensures t !in fx[k].added {
      assert sources[k] in sources;
    }
    NothingAdded(t, t in Live(st.Groups()), fx);
    if s :| s in sources && t in st.Tracked(s.id) && s.Active() {
      var k :| 0 <= k < |sources| && sources[k] == s;
      assert t !in Wants(s);
      assert t in fx[k].stripped;
    } else {
      assert t !in p;
      var k :| 0 <= k < |sources| && sources[k] == u;
      assert t in fx[k].stripped;
    }
  }

  lemma NewIsTracked(st: State, sources: seq<Source>, rows: seq<string>, t: Entry)
    requires WellFormed(st, sources) && Enumerates(rows, st.applied)
    requires t !in Live(st.Groups()) && t in Live(Tick(st, sources, rows, NO_FAULTS).Groups())
    ensures exists id :: t in Tick(st, sources, rows, NO_FAULTS).Tracked(id)
  {
    var st' := Tick(st, sources, rows, NO_FAULTS);
    TickLive(st, sources, rows, t);
    TickRows(st, sources, rows);
    var k :| 0 <= k < |sources| && t in Added(st, sources[k]);
    AddedIsTracked(st, sources[k], st', t);
  }

  lemma AddedIsTracked(st: State, s: Source, st': State, t: Entry)
    requires RowsAfter(st, s, st') && t in Added(st, s)
    ensures t in st'.Tracked(s.id)
  {
  }

  /** A fault-free tick leaves no orphans behind exactly when no owned entry is abandoned. */
  lemma NoOrphansIff(owned: set<Entry>, st: State, sources: seq<Source>, rows: seq<string>)
    requires WellFormed(st, sources) && Enumerates(rows, st.applied) && TrackedApplied(st)
    requires NoOrphans(owned, st)
    ensures var st' := Tick(st, sources, rows, NO_FAULTS);
            NoOrphans(OwnedAfter(owned, st, st'), st') <==> forall t :: t in owned ==> !Abandoned(st, sources, t)
  {
    var st' := Tick(st, sources, rows, NO_FAULTS);
    var owned' := OwnedAfter(owned, st, st');
    forall t | t in owned && Abandoned(st, sources, t) ensures !NoOrphans(owned', st') {
      AbandonedIsOrphaned(st, sources, rows, t);
      assert t in owned';
    }
    if forall t :: t in owned ==> !Abandoned(st, sources, t) {
      forall t | t in owned' ensures exists id :: t in st'.Tracked(id) {
        if t in owned {
          var id :| t in st.Tracked(id);
          assert id in st.applied;
          var u :| u in sources && u.id == id;
          KeptIsTracked(st, sources, rows, t, u);
        } else {
          NewIsTracked(st, sources, rows, t);
        }
      }
    }
  }
}
