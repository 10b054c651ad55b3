/** Main results about fault-free ticks: exact effect, convergence, and when one tick is enough. */
module ScheduleConvergence {
  import opened Sequences
  import opened BlockingConfig
  import opened ScheduleModel
  import opened ScheduleApply
  import opened ScheduleEffects
  import opened ScheduleTrace
  import opened ScheduleTick

  // ---- tables after a tick -------------------------------------------------------------------

  /** The tables and the shape of the configuration after a fault-free tick. */
  lemma TickRows(st: State, sources: seq<Source>, rows: seq<string>)
    requires WellFormed(st, sources) && Enumerates(rows, st.applied)
    ensures var st' := Tick(st, sources, rows, NO_FAULTS);
            && SameShape(st.Groups(), st'.Groups())
            && WellFormed(st', sources)
            && (forall s :: s in sources ==> RowsAfter(st, s, st'))
            && (forall id :: id !in Ids(sources) ==> st'.Tracked(id) == st.Tracked(id))
  {
    var st' := Tick(st, sources, rows, NO_FAULTS);
    var sts, _, v := TickTrace(st, sources, rows, NO_FAULTS);
    UnvisitedShape(sts, v, Protected(sources));
    forall s | s in sources ensures RowsAfter(st, s, st') {
      if s in v {
        TraceTables(sts, v, Protected(sources), s);
      } else {
        OtherIds(sources, v, s);
        UnvisitedKeepsRows(sts, v, Protected(sources), NO_FAULTS, s.id);
      }
    }
    forall id | id !in Ids(sources) ensures st'.Tracked(id) == st.Tracked(id) {
      UnvisitedKeepsRows(sts, v, Protected(sources), NO_FAULTS, id);
    }
    forall id | id in st'.applied ensures exists s :: s in sources && s.id == id {
      if forall s :: s in v ==> s.id != id {
        UnvisitedKeepsRows(sts, v, Protected(sources), NO_FAULTS, id);
      }
    }
  }

  ghost predicate RowsAfter(st: State, s: Source, st': State) {
    && st'.Tracked(s.id) == TrackedAfter(st, s)
    && (s.id in st'.applied <==> AppliedAfter(st, s))
  }

  lemma OtherIds(sources: seq<Source>, v: seq<Source>, s: Source)
    requires DistinctIds(sources) && s in sources && s !in v
    requires forall x :: x in v ==> x in sources
    ensures forall x :: x in v ==> x.id != s.id
  {
    var i :| 0 <= i < |sources| && sources[i] == s;
    forall x | x in v ensures x.id != s.id {
      var j :| 0 <= j < |sources| && sources[j] == x;
    }
  }

  lemma {:induction false} UnvisitedShape(sts: seq<State>, v: seq<Source>, p: set<Entry>)
    requires Trace(sts, v, p, NO_FAULTS)
    ensures SameShape(sts[0].Groups(), sts[|v|].Groups())
  {
    if v != [] {
      TracePrefix(sts, v, p);
      UnvisitedShape(sts[..|v|], v[..|v| - 1], p);
      FaultFreeVisit(sts[|v| - 1], v[|v| - 1], p, sts[|v|]);
    }
  }

  // ---- exact effect outside what active sources want ------------------------------------------

  /** What a tick takes away on behalf of `s`, if nothing protects it. */
  ghost function Claims(st: State, s: Source): set<Entry> {
    if s.Active() then (if Present(st, s) then st.Tracked(s.id) else {})
    else if s.id in st.applied then Leftovers(st, s)
    else {}
  }

  /** Outside the protected entries a tick removes exactly the claimed ones and adds nothing. */
  lemma TickOutsideProtected(st: State, sources: seq<Source>, rows: seq<string>, t: Entry)
    requires WellFormed(st, sources) && Enumerates(rows, st.applied)
    requires t !in Protected(sources)
    ensures t in Live(Tick(st, sources, rows, NO_FAULTS).Groups()) <==>
            t in Live(st.Groups()) && forall s :: s in sources ==> t !in Claims(st, s)
  {
    TickLive(st, sources, rows, t);
    UnwantedLive(st, sources, sources, Protected(sources), t, t in Live(st.Groups()));
    forall s | s in sources ensures t in Claims(st, s) <==> t in Stripped(st, s, Protected(sources)) {
      UnprotectedClaim(st, sources, s, t);
    }
  }

  lemma UnprotectedClaim(st: State, sources: seq<Source>, s: Source, t: Entry)
    requires s in sources && t !in Protected(sources)
    ensures t in Claims(st, s) <==> t in Stripped(st, s, Protected(sources))
  {
    ProtectedIff(sources, t);
  }

  /** Neither the order of the sources nor the order of the table rows matters outside the protected entries. */
  lemma OrderIrrelevantOutsideProtected(st: State, sources: seq<Source>, rows: seq<string>,
                                        sources': seq<Source>, rows': seq<string>)
    requires WellFormed(st, sources) && Enumerates(rows, st.applied)
    requires WellFormed(st, sources') && Enumerates(rows', st.applied)
    requires forall s :: s in sources <==> s in sources'
    ensures Protected(sources) == Protected(sources')
    ensures Live(Tick(st, sources, rows, NO_FAULTS).Groups()) - Protected(sources) ==
            Live(Tick(st, sources', rows', NO_FAULTS).Groups()) - Protected(sources)
  {
    var p := Protected(sources);
    forall t ensures t in p <==> t in Protected(sources') {
      ProtectedIff(sources, t);
      ProtectedIff(sources', t);
    }
    forall t | t !in p
      ensures t in Live(Tick(st, sources, rows, NO_FAULTS).Groups()) <==>
              t in Live(Tick(st, sources', rows', NO_FAULTS).Groups())
    {
      TickOutsideProtected(st, sources, rows, t);
      TickOutsideProtected(st, sources', rows', t);
    }
  }

  // ---- convergence ---------------------------------------------------------------------------

  /** Every ready source tracks exactly what it wants and counts as applied; no inactive source does. */
  ghost predicate TablesSettled(st: State, sources: seq<Source>) {
    forall s :: s in sources ==>
      && (Ready(st, s) ==> st.Tracked(s.id) == Wants(s) && s.id in st.applied)
      && (!s.Active() ==> s.id !in st.applied)
  }

  ghost predicate AllWantedLive(st: State, sources: seq<Source>) {
    forall s :: s in sources && Ready(st, s) ==> Wants(s) <= Live(st.Groups())
  }

  lemma OneTickSettlesTables(st: State, sources: seq<Source>, rows: seq<string>)
    requires WellFormed(st, sources) && Enumerates(rows, st.applied)
    ensures TablesSettled(Tick(st, sources, rows, NO_FAULTS), sources)
  {
    var st' := Tick(st, sources, rows, NO_FAULTS);
    TickRows(st, sources, rows);
    forall s | s in sources ensures Ready(st, s) <==> Ready(st', s) {
      PresentFrame(st, st', s);
    }
    forall s | s in sources ensures RowsAfter(st, s, st') {
    }
  }

  /** Self-healing: when tracking already equals what the ready sources want, one tick makes all of it live,
      whatever was done to the configuration's lists from outside. */
  lemma OneTickHeals(st: State, sources: seq<Source>, rows: seq<string>)
    requires WellFormed(st, sources) && Enumerates(rows, st.applied)
    requires forall s :: s in sources && Ready(st, s) ==> st.Tracked(s.id) == Wants(s)
    ensures AllWantedLive(Tick(st, sources, rows, NO_FAULTS), sources)
  {
    var st' := Tick(st, sources, rows, NO_FAULTS);
    TickRows(st, sources, rows);
    forall s, t | s in sources && Ready(st', s) && t in Wants(s) ensures t in Live(st'.Groups()) {
      PresentFrame(st, st', s);
      TickLive(st, sources, rows, t);
      NobodyStripsWanted(st, sources, s, t);
    }
  }

  lemma TrackedAsWantedStripsNothing(st: State, u: Source, p: set<Entry>, t: Entry)
    requires t in p && (Ready(st, u) ==> st.Tracked(u.id) == Wants(u))
    ensures t !in Stripped(st, u, p)
  {
  }

  lemma NobodyStripsWanted(st: State, sources: seq<Source>, s: Source, t: Entry)
    requires forall s :: s in sources && Ready(st, s) ==> st.Tracked(s.id) == Wants(s)
    requires s in sources && Ready(st, s) && t in Wants(s)
    ensures EndsLive(t, t in Live(st.Groups()), Effects(st, sources, Protected(sources)))
  {
    var p := Protected(sources);
    var fx := Effects(st, sources, p);
    ProtectedIff(sources, t);
    var k :| 0 <= k < |sources| && sources[k] == s;
    EffectAt(st, sources, p, k);
    forall j | 0 <= j < |fx| ensures t !in fx[j].stripped {
      EffectAt(st, sources, p, j);
      assert sources[j] in sources;
      TrackedAsWantedStripsNothing(st, sources[j], p, t);
    }
    assert SurvivesFrom(t, fx, k + 1);
  }

  lemma ReconcileIdle(groups: seq<Group>, desired: seq<Entry>)
    requires ToSet(desired) <= Live(groups)
    ensures Reconcile(groups, desired, ToSet(desired)) == groups
  {
    StripChangesIffLive(groups, {});
    NothingMissing(groups, desired);
    ExtendNothing(groups);
    assert ToSet(desired) - ToSet(desired) == {};
  }

  lemma ApplyIsIdle(st: State, s: Source)
    requires Present(st, s) && Reconcile(st.Groups(), Desired(s), st.Tracked(s.id)) == st.Groups()
    requires SetTracked(st.tracked, s.id, Wants(s)) == st.tracked
    ensures ApplySource(st, s, NO_FAULTS) == Done(st, false)
  {
  }

  lemma IdleApplyIsIdle(st: State, s: Source, p: set<Entry>)
    requires s.open && s.id in st.applied && ApplySource(st, s, NO_FAULTS) == Done(st, false)
    ensures Evaluate(st, s, p, NO_FAULTS).0 == st
  {
    assert st.applied + {s.id} == st.applied;
  }

  lemma ReadyIsIdle(st: State, s: Source, p: set<Entry>)
    requires Ready(st, s) && st.Tracked(s.id) == Wants(s) && s.id in st.applied && Wants(s) <= Live(st.Groups())
    ensures Evaluate(st, s, p, NO_FAULTS).0 == st
  {
    ReconcileIdle(st.Groups(), Desired(s));
    SameTracking(st.tracked, s.id, Wants(s));
    ApplyIsIdle(st, s);
    IdleApplyIsIdle(st, s, p);
  }

  lemma SameTracking(tracked: Tracking, id: string, w: set<Entry>)
    requires w == if id in tracked then tracked[id] else {}
    ensures SetTracked(tracked, id, w) == tracked
  {
  }

  lemma {:induction false} EvaluateAllIdle(st: State, vs: seq<Source>, p: set<Entry>)
    requires forall s :: s in vs ==> Evaluate(st, s, p, NO_FAULTS).0 == st
    ensures EvaluateAll(st, vs, p, NO_FAULTS) == st
  {
    if vs != [] {
      EvaluateAllIdle(st, vs[..|vs| - 1], p);
      assert vs[|vs| - 1] in vs;
    }
  }

  /** A settled state with everything live is a fixed point: no write, no change of any table. */
  lemma SettledIsFixed(st: State, sources: seq<Source>, rows: seq<string>)
    requires WellFormed(st, sources) && Enumerates(rows, st.applied)
    requires TablesSettled(st, sources) && AllWantedLive(st, sources)
    ensures Tick(st, sources, rows, NO_FAULTS) == st
  {
    var p, stale := Protected(sources), StaleRows(rows, sources);
    forall id | id in st.applied ensures InRotation(id, sources) {
      var s :| s in sources && s.id == id;
      assert s.Active();
      var i :| 0 <= i < |sources| && sources[i] == s;
      assert sources[i].id == id && sources[i].inRotation;
    }
    EmptyIffNoMember(stale);
    forall s | s in Rotation(sources) ensures Evaluate(st, s, p, NO_FAULTS).0 == st {
      if Ready(st, s) {
        ReadyIsIdle(st, s, p);
      }
    }
    EvaluateAllIdle(st, Rotation(sources), p);
  }

  /** With definitions, windows and group names frozen, two fault-free ticks make everything that ready sources
      want live, and the third tick changes nothing at all. */
  lemma TwoTicksConverge(st: State, sources: seq<Source>, rows1: seq<string>, rows2: seq<string>, rows3: seq<string>)
    requires WellFormed(st, sources) && Enumerates(rows1, st.applied)
    requires var st1 := Tick(st, sources, rows1, NO_FAULTS);
             && Enumerates(rows2, st1.applied)
             && Enumerates(rows3, Tick(st1, sources, rows2, NO_FAULTS).applied)
    ensures var st1 := Tick(st, sources, rows1, NO_FAULTS);
            var st2 := Tick(st1, sources, rows2, NO_FAULTS);
            && (forall s :: s in sources && Ready(st, s) ==> Wants(s) <= Live(st2.Groups()))
            && Tick(st2, sources, rows3, NO_FAULTS) == st2
  {
    var st1 := Tick(st, sources, rows1, NO_FAULTS);
    var st2 := Tick(st1, sources, rows2, NO_FAULTS);
    TickRows(st, sources, rows1);
    OneTickSettlesTables(st, sources, rows1);
    TickRows(st1, sources, rows2);
    OneTickSettlesTables(st1, sources, rows2);
    OneTickHeals(st1, sources, rows2);
    SettledIsFixed(st2, sources, rows3);
    forall s | s in sources && Ready(st, s) ensures Ready(st2, s) {
      PresentFrame(st, st1, s);
      PresentFrame(st1, st2, s);
    }
  }

  // ---- when one tick is enough ---------------------------------------------------------------

  /** The source at `j` still tracks `t` from an older definition and will strip it when it is applied. */
  ghost predicate Drops(st: State, s: Source, t: Entry) {
    Ready(st, s) && t in st.Tracked(s.id) && t !in Wants(s)
  }

  /** Whatever a ready source drops although some ready source wants it is wanted again by a later ready source. */
  ghost predicate DropsAreRestored(st: State, sources: seq<Source>) {
    forall j, t :: 0 <= j < |sources| && Drops(st, sources[j], t) && AddedAfter(st, sources, -1, t)
      ==> AddedAfter(st, sources, j, t)
  }

  /** A ready source later in the list than `j` wants `t`. */
  ghost predicate AddedAfter(st: State, sources: seq<Source>, j: int, t: Entry) {
    exists k :: 0 <= k < |sources| && j < k && t in Added(st, sources[k])
  }

  /** One tick is enough exactly when every dropped entry is restored later in the same pass. */
  lemma OneTickIsEnoughIff(st: State, sources: seq<Source>, rows: seq<string>)
    requires WellFormed(st, sources) && Enumerates(rows, st.applied)
    ensures AllWantedLive(Tick(st, sources, rows, NO_FAULTS), sources) <==> DropsAreRestored(st, sources)
  {
    var st' := Tick(st, sources, rows, NO_FAULTS);
    TickRows(st, sources, rows);
    forall s | s in sources ensures Present(st, s) <==> Present(st', s) {
      PresentFrame(st, st', s);
    }
    if DropsAreRestored(st, sources) {
      forall s, t | s in sources && Ready(st', s) && t in Wants(s) ensures t in Live(st'.Groups()) {
        TickLive(st, sources, rows, t);
        var i :| 0 <= i < |sources| && sources[i] == s;
        RestoredSourceEndsLive(st, sources, i, t, t in Live(st.Groups()));
      }
    }
    if AllWantedLive(st', sources) {
      forall j, t | 0 <= j < |sources| && Drops(st, sources[j], t) && AddedAfter(st, sources, -1, t)
        ensures AddedAfter(st, sources, j, t)
      {
        var i :| 0 <= i < |sources| && t in Added(st, sources[i]);
        assert sources[i] in sources && Ready(st', sources[i]) && t in Wants(sources[i]);
        TickLive(st, sources, rows, t);
        LiveAfterDrop(st, sources, j, t);
      }
    }
  }

  lemma {:induction false} RestoredEndsLive(t: Entry, live: bool, fx: seq<Effect>, i: nat)
    requires i < |fx| && t in fx[i].added
    requires forall j :: 0 <= j < |fx| && t in fx[j].stripped ==> exists k :: j < k < |fx| && t in fx[k].added
    ensures EndsLive(t, live, fx)
    decreases |fx| - i
  {
    if j :| i < j < |fx| && t in fx[j].stripped {
      var k :| j < k < |fx| && t in fx[k].added;
      RestoredEndsLive(t, live, fx, k);
    } else {
      assert SurvivesFrom(t, fx, i + 1);
    }
  }

  /** What strips an entry that an active source wants is a ready source dropping it. */
  lemma StrippedIsDropped(st: State, s: Source, p: set<Entry>, t: Entry)
    requires t in p && t in Stripped(st, s, p)
    ensures Drops(st, s, t)
  {
  }

  lemma AddedIsProtected(st: State, sources: seq<Source>, i: nat, t: Entry)
    requires i < |sources| && t in Added(st, sources[i])
    ensures t in Protected(sources)
  {
    ProtectedIff(sources, t);
    assert sources[i] in sources;
  }

  lemma DropsRestoredEffects(st: State, sources: seq<Source>, i: nat, j: nat, t: Entry)
    requires i < |sources| && j < |sources| && t in Added(st, sources[i]) && DropsAreRestored(st, sources)
    requires t in Stripped(st, sources[j], Protected(sources))
    ensures AddedAfter(st, sources, j, t)
  {
    assert AddedAfter(st, sources, -1, t);
    AddedIsProtected(st, sources, i, t);
    StrippedIsDropped(st, sources[j], Protected(sources), t);
  }

  lemma AddedEffect(st: State, sources: seq<Source>, p: set<Entry>, fx: seq<Effect>, j: int, t: Entry)
    requires AddedAfter(st, sources, j, t) && fx == Effects(st, sources, p)
    ensures exists k :: 0 <= k < |fx| && j < k && t in fx[k].added
  {
    var k :| 0 <= k < |sources| && j < k && t in Added(st, sources[k]);
    EffectAt(st, sources, p, k);
  }

  lemma RestoredSourceEndsLive(st: State, sources: seq<Source>, i: nat, t: Entry, live: bool)
    requires i < |sources| && t in Added(st, sources[i]) && DropsAreRestored(st, sources)
    ensures EndsLive(t, live, Effects(st, sources, Protected(sources)))
  {
    var fx := Effects(st, sources, Protected(sources));
    forall j | 0 <= j < |fx| && t in fx[j].stripped ensures exists k :: j < k < |fx| && t in fx[k].added {
      DropsRestoredEffects(st, sources, i, j, t);
      AddedEffect(st, sources, Protected(sources), fx, j, t);
    }
    RestoredEndsLive(t, live, fx, i);
  }

  lemma LiveAfterStrip(t: Entry, live: bool, fx: seq<Effect>, j: nat)
    requires j < |fx| && t in fx[j].stripped && t !in fx[j].added && EndsLive(t, live, fx)
    ensures exists k :: j < k < |fx| && t in fx[k].added
  {
    assert !SurvivesFrom(t, fx, 0);
    var k :| 0 <= k < |fx| && t in fx[k].added && SurvivesFrom(t, fx, k + 1);
    assert k > j;
  }

  lemma LiveAfterDrop(st: State, sources: seq<Source>, j: nat, t: Entry)
    requires j < |sources| && Drops(st, sources[j], t)
    requires EndsLive(t, t in Live(st.Groups()), Effects(st, sources, Protected(sources)))
    ensures AddedAfter(st, sources, j, t)
  {
    var fx := Effects(st, sources, Protected(sources));
    LiveAfterStrip(t, t in Live(st.Groups()), fx, j);
    var k :| j < k < |fx| && t in fx[k].added;
    assert t in Added(st, sources[k]);
  }

  // ---- two sources for which one tick is not enough --------------------------------------------

  lemma DesiredIff(s: Source, t: Entry)
    ensures t in Wants(s) <==>
            t.group in s.groupNames && t.action == s.action &&
            (t.domain in s.domainEntries || t.domain in s.groupEntries)
  {
    assert t in Product(s.groupNames, s.action, ResolveDomains(s)) <==> t in Desired(s);
    assert t.domain in ResolveDomains(s) <==> t.domain in s.domainEntries + s.groupEntries;
  }

  /** Domain `x` moved from source B, now wanting `y`, to source A; B's last apply is still on record. */
  lemma MovedDomain(idA: string, idB: string, g: string, x: string, y: string)
    returns (st: State, sources: seq<Source>)
    requires idA != idB && x != y
    ensures |sources| == 2 && sources[0].id == idA && sources[1].id == idB
    ensures sources[0].domainEntries == [x] && sources[1].domainEntries == [y]
    ensures WellFormed(st, sources) && Enumerates([idB], st.applied)
    ensures Entry(g, Block, x) in Added(st, sources[0])
    ensures Drops(st, sources[1], Entry(g, Block, x))
  {
    var a := Source(idA, true, true, [g], Block, [x], []);
    var b := Source(idB, true, true, [g], Block, [y], []);
    var shared := Entry(g, Block, x);
    sources := [a, b];
    st := State(Config([Group(g, [x], [], map[])], map[]), {idB}, map[idB := {shared}], 1);
    DesiredIff(a, shared);
    DesiredIff(b, shared);
    assert st.Groups()[0].name == g && HasGroup(st.Groups(), g);
    assert b in sources;
  }

  /** In the smallest such case one tick is not enough: B's apply takes away what A's apply just wanted. */
  lemma OneTickIsNotAlwaysEnough(idA: string, idB: string, g: string, x: string, y: string)
    returns (st: State, sources: seq<Source>)
    requires idA != idB && x != y
    ensures |sources| == 2 && sources[0].id == idA && sources[1].id == idB
    ensures sources[0].domainEntries == [x] && sources[1].domainEntries == [y]
    ensures WellFormed(st, sources) && Enumerates([idB], st.applied)
    ensures !AllWantedLive(Tick(st, sources, [idB], NO_FAULTS), sources)
  {
    st, sources := MovedDomain(idA, idB, g, x, y);
    assert AddedAfter(st, sources, -1, Entry(g, Block, x));
    DropUnrestored(st, sources, 1, Entry(g, Block, x));
    OneTickIsEnoughIff(st, sources, [idB]);
  }

  lemma DropUnrestored(st: State, sources: seq<Source>, j: nat, t: Entry)
    requires j < |sources| && Drops(st, sources[j], t)
    requires AddedAfter(st, sources, -1, t) && !AddedAfter(st, sources, j, t)
    ensures !DropsAreRestored(st, sources)
  {
  }
}
