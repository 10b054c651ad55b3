/** Runs of the evaluator in which loads and writes may fail, definitions change and others edit the configuration. */
module ScheduleRuns {
  import opened Sequences
  import opened BlockingConfig
  import opened ScheduleModel
  import opened ScheduleEffects
  import opened ScheduleTrace
  import opened ScheduleTick
  import opened ScheduleConvergence

  // ---- history -------------------------------------------------------------------------------

  /** Successful applies and removals, and deletions of sources, in order. */
  datatype Event = AppliedEvent(id: string, wanted: set<Entry>) | RemovedEvent(id: string) | DeletedEvent(kept: set<string>)

  /** What the last successful apply of `id` wanted, unless it was removed or deleted since. */
  function LastApply(log: seq<Event>, id: string): set<Entry> {
    if log == [] then {}
    else
      match log[|log| - 1]
      case AppliedEvent(i, wanted) => if i == id then wanted else LastApply(log[..|log| - 1], id)
      case RemovedEvent(i) => if i == id then {} else LastApply(log[..|log| - 1], id)
      case DeletedEvent(kept) => if id !in kept then {} else LastApply(log[..|log| - 1], id)
  }

  /** A visit that goes through is recorded. */
  ghost function VisitEvents(st: State, s: Source, p: set<Entry>, faults: Faults): seq<Event> {
    if Fails(st, s, p, faults) then []
    else if s.Active() then [AppliedEvent(s.id, Wants(s))]
    else if s.id in st.applied then [RemovedEvent(s.id)]
    else []
  }

  ghost function EvaluateAllEvents(st: State, vs: seq<Source>, p: set<Entry>, faults: Faults): seq<Event> {
    if vs == [] then []
    else
      var init := vs[..|vs| - 1];
      EvaluateAllEvents(st, init, p, faults) + VisitEvents(EvaluateAll(st, init, p, faults), vs[|vs| - 1], p, faults)
  }

  ghost function CleanupEvents(st: State, id: string, sources: seq<Source>, p: set<Entry>, faults: Faults): seq<Event> {
    var i := FindSource(sources, id);
    if i < 0 then [] else VisitEvents(st, sources[i], p, faults)
  }

  ghost function CleanupAllEvents(st: State, rows: seq<string>, sources: seq<Source>, p: set<Entry>, faults: Faults)
    : seq<Event>
  {
    if rows == [] then []
    else
      var init := rows[..|rows| - 1];
      CleanupAllEvents(st, init, sources, p, faults) +
      CleanupEvents(CleanupAll(st, init, sources, p, faults), rows[|rows| - 1], sources, p, faults)
  }

  ghost function TickEvents(st: State, sources: seq<Source>, rows: seq<string>, faults: Faults): seq<Event> {
    var p, stale := Protected(sources), StaleRows(rows, sources);
    CleanupAllEvents(st, stale, sources, p, faults) +
    EvaluateAllEvents(CleanupAll(st, stale, sources, p, faults), Rotation(sources), p, faults)
  }

  // ---- the invariant -------------------------------------------------------------------------

  /** Tracking is what the history says, and whatever is tracked belongs to an applied source. */
  ghost predicate Faithful(st: State, log: seq<Event>) {
    && (forall id :: st.Tracked(id) == LastApply(log, id))
    && (forall id :: st.Tracked(id) != {} ==> id in st.applied)
  }

  /** What a visit does to the tables is what it records. */
  lemma VisitFaithful(a: State, s: Source, p: set<Entry>, faults: Faults, b: State, log: seq<Event>)
    requires Faithful(a, log) && VisitedUnder(a, s, p, faults, b)
    ensures Faithful(b, log + VisitEvents(a, s, p, faults))
  {
    assert log + [] == log;
    var log' := log + VisitEvents(a, s, p, faults);
    if |log'| > |log| {
      assert log'[..|log|] == log;
    }
    forall x ensures b.Tracked(x) == LastApply(log', x) && (b.Tracked(x) != {} ==> x in b.applied) {
      assert a.Tracked(x) == LastApply(log, x) && (a.Tracked(x) != {} ==> x in a.applied);
    }
  }

  lemma EvaluateFaithful(st: State, s: Source, p: set<Entry>, faults: Faults, log: seq<Event>)
    requires Faithful(st, log) && s.inRotation
    ensures Faithful(Evaluate(st, s, p, faults).0, log + VisitEvents(st, s, p, faults))
  {
    EvaluateVisits(st, s, p, faults);
    VisitFaithful(st, s, p, faults, Evaluate(st, s, p, faults).0, log);
  }

  lemma CleanupFaithful(st: State, id: string, sources: seq<Source>, p: set<Entry>, faults: Faults, log: seq<Event>)
    requires Faithful(st, log) && FindSource(sources, id) >= 0 && !InRotation(id, sources)
    ensures Faithful(Cleanup(st, id, sources, p, faults).0, log + CleanupEvents(st, id, sources, p, faults))
  {
    var st' := Cleanup(st, id, sources, p, faults).0;
    if id in st.applied {
      CleanupVisits(st, id, sources, p, faults);
      VisitFaithful(st, sources[FindSource(sources, id)], p, faults, st', log);
    } else {
      assert log + [] == log && st.Tracked(id) == {};
      forall x ensures st'.Tracked(x) == st.Tracked(x) && (x in st'.applied <==> x in st.applied) {
      }
    }
  }

  lemma {:induction false} EvaluateAllFaithful(st: State, vs: seq<Source>, p: set<Entry>, faults: Faults,
                                               log: seq<Event>)
    requires Faithful(st, log) && forall s :: s in vs ==> s.inRotation
    ensures Faithful(EvaluateAll(st, vs, p, faults), log + EvaluateAllEvents(st, vs, p, faults))
  {
    if vs == [] {
      assert log + [] == log;
    } else {
      var init, last := vs[..|vs| - 1], vs[|vs| - 1];
      EvaluateAllFaithful(st, init, p, faults, log);
      var st', log' := EvaluateAll(st, init, p, faults), log + EvaluateAllEvents(st, init, p, faults);
      EvaluateFaithful(st', last, p, faults, log');
      assert log' + VisitEvents(st', last, p, faults) == log + EvaluateAllEvents(st, vs, p, faults);
    }
  }

  lemma CleanupAllSnoc(st: State, rows: seq<string>, id: string, sources: seq<Source>, p: set<Entry>, faults: Faults)
    ensures var before := CleanupAll(st, rows, sources, p, faults);
            && CleanupAll(st, rows + [id], sources, p, faults) == Cleanup(before, id, sources, p, faults).0
            && CleanupAllEvents(st, rows + [id], sources, p, faults) ==
               CleanupAllEvents(st, rows, sources, p, faults) + CleanupEvents(before, id, sources, p, faults)
  {
    InitOfAppend(rows, id);
  }

  lemma {:induction false} CleanupAllFaithful(st: State, rows: seq<string>, sources: seq<Source>, p: set<Entry>,
                                              faults: Faults, log: seq<Event>)
    requires Faithful(st, log)
    requires forall id :: id in rows ==> FindSource(sources, id) >= 0 && !InRotation(id, sources)
    ensures Faithful(CleanupAll(st, rows, sources, p, faults), log + CleanupAllEvents(st, rows, sources, p, faults))
  {
    if rows == [] {
      assert log + [] == log;
    } else {
      var init, last := rows[..|rows| - 1], rows[|rows| - 1];
      CleanupAllFaithful(st, init, sources, p, faults, log);
      var before, events := CleanupAll(st, init, sources, p, faults), CleanupAllEvents(st, init, sources, p, faults);
      CleanupFaithful(before, last, sources, p, faults, log + events);
      InitLast(rows);
      CleanupAllSnoc(st, init, last, sources, p, faults);
      Associative(log, events, CleanupEvents(before, last, sources, p, faults));
    }
  }

  lemma Associative(a: seq<Event>, b: seq<Event>, c: seq<Event>)
    ensures (a + b) + c == a + (b + c)
  {
  }

  /** A tick with any faults keeps the tables faithful to the history. */
  lemma TickFaithful(st: State, sources: seq<Source>, rows: seq<string>, faults: Faults, log: seq<Event>)
    requires Faithful(st, log) && AppliedKnown(st, sources) && Enumerates(rows, st.applied)
    ensures Faithful(Tick(st, sources, rows, faults), log + TickEvents(st, sources, rows, faults))
  {
    var p, stale := Protected(sources), StaleRows(rows, sources);
    forall id | id in stale ensures FindSource(sources, id) >= 0 {
      var s :| s in sources && s.id == id;
    }
    CleanupAllFaithful(st, stale, sources, p, faults, log);
    var st', log' := CleanupAll(st, stale, sources, p, faults), log + CleanupAllEvents(st, stale, sources, p, faults);
    EvaluateAllFaithful(st', Rotation(sources), p, faults, log');
    Associative(log, CleanupAllEvents(st, stale, sources, p, faults),
                EvaluateAllEvents(st', Rotation(sources), p, faults));
  }

  // ---- runs ----------------------------------------------------------------------------------

  datatype World = World(st: State, sources: seq<Source>, log: seq<Event>)

  /** What can happen between and in ticks. An aborted tick fails before it touches anything. Redefining the
      sources covers edits, enabling, window changes and, for ids that vanish, the deletion of their rows. */
  datatype Step =
    | TickStep(rows: seq<string>, faults: Faults)
    | AbortedTick
    | OutsideEdit(config: Config)
    | Redefine(sources: seq<Source>)

  ghost function Next(w: World, step: Step): World {
    match step
    case TickStep(rows, faults) =>
      w.(st := Tick(w.st, w.sources, rows, faults), log := w.log + TickEvents(w.st, w.sources, rows, faults))
    case AbortedTick => w
    case OutsideEdit(config) => w.(st := w.st.(config := config))
    case Redefine(sources) =>
      var kept := Ids(sources);
      World(w.st.(applied := w.st.applied * kept, tracked := map id | id in w.st.tracked && id in kept :: w.st.tracked[id]),
            sources, w.log + [DeletedEvent(kept)])
  }

  ghost predicate Enabled(w: World, step: Step) {
    match step
    case TickStep(rows, _) => Enumerates(rows, w.st.applied)
    case Redefine(sources) => DistinctIds(sources)
    case _ => true
  }

  ghost function Run(w: World, steps: seq<Step>): World {
    if steps == [] then w else Next(Run(w, steps[..|steps| - 1]), steps[|steps| - 1])
  }

  ghost predicate ValidRun(w: World, steps: seq<Step>) {
    steps != [] ==>
      ValidRun(w, steps[..|steps| - 1]) && Enabled(Run(w, steps[..|steps| - 1]), steps[|steps| - 1])
  }

  ghost predicate Consistent(w: World) {
    Faithful(w.st, w.log) && WellFormed(w.st, w.sources)
  }

  lemma EvaluateApplied(st: State, s: Source, p: set<Entry>, faults: Faults)
    ensures Evaluate(st, s, p, faults).0.applied <= st.applied + {s.id}
  {
  }

  lemma {:induction false} EvaluateAllApplied(st: State, vs: seq<Source>, p: set<Entry>, faults: Faults)
    ensures EvaluateAll(st, vs, p, faults).applied <= st.applied + Ids(vs)
  {
    if vs != [] {
      var n := |vs| - 1;
      EvaluateAllApplied(st, vs[..n], p, faults);
      EvaluateApplied(EvaluateAll(st, vs[..n], p, faults), vs[n], p, faults);
      assert vs == vs[..n] + [vs[n]];
    }
  }

  lemma {:induction false} CleanupAllApplied(st: State, rows: seq<string>, sources: seq<Source>, p: set<Entry>,
                                             faults: Faults)
    ensures CleanupAll(st, rows, sources, p, faults).applied <= st.applied
  {
    if rows != [] {
      CleanupAllApplied(st, rows[..|rows| - 1], sources, p, faults);
    }
  }

  lemma TickAppliedKnown(st: State, sources: seq<Source>, rows: seq<string>, faults: Faults)
    requires AppliedKnown(st, sources)
    ensures AppliedKnown(Tick(st, sources, rows, faults), sources)
  {
    var p, stale := Protected(sources), StaleRows(rows, sources);
    CleanupAllApplied(st, stale, sources, p, faults);
    EvaluateAllApplied(CleanupAll(st, stale, sources, p, faults), Rotation(sources), p, faults);
  }

  lemma RedefineConsistent(w: World, sources: seq<Source>)
    requires Consistent(w) && DistinctIds(sources)
    ensures Consistent(Next(w, Redefine(sources)))
  {
    var w' := Next(w, Redefine(sources));
    assert w'.log[..|w.log|] == w.log;
    forall id ensures w'.st.Tracked(id) == LastApply(w'.log, id) {
      assert w.st.Tracked(id) == LastApply(w.log, id);
    }
    forall id | id in w'.st.applied ensures exists s :: s in sources && s.id == id {
    }
  }

  lemma NextConsistent(w: World, step: Step)
    requires Consistent(w) && Enabled(w, step)
    ensures Consistent(Next(w, step))
  {
    match step
    case TickStep(rows, faults) =>
      TickFaithful(w.st, w.sources, rows, faults, w.log);
      TickAppliedKnown(w.st, w.sources, rows, faults);
    case Redefine(sources) => RedefineConsistent(w, sources);
    case AbortedTick =>
    case OutsideEdit(_) =>
  }

  /** Over every run, whatever fails: each source tracks exactly what its last successful apply wanted since its last
      successful removal, and a source with tracked entries always keeps its applied row. */
  lemma {:induction false} RunConsistent(w: World, steps: seq<Step>)
    requires Consistent(w) && ValidRun(w, steps)
    ensures Consistent(Run(w, steps))
  {
    if steps != [] {
      RunConsistent(w, steps[..|steps| - 1]);
      NextConsistent(Run(w, steps[..|steps| - 1]), steps[|steps| - 1]);
    }
  }

  lemma FreshInstallIsConsistent(config: Config, sources: seq<Source>)
    requires DistinctIds(sources)
    ensures Consistent(World(State(config, {}, map[], 0), sources, []))
  {
  }

  /** Because tracking comes with an applied row, removal is retried: at any point of any run, one fault-free tick
      takes every unprotected tracked entry of an inactive source out of the configuration and clears its rows. */
  lemma RemovalIsRetried(w: World, steps: seq<Step>, rows: seq<string>, s: Source, t: Entry)
    requires Consistent(w) && ValidRun(w, steps)
    requires Enumerates(rows, Run(w, steps).st.applied)
    requires s in Run(w, steps).sources && !s.Active()
    ensures var w1 := Run(w, steps);
            var st' := Tick(w1.st, w1.sources, rows, NO_FAULTS);
            && st'.Tracked(s.id) == {} && s.id !in st'.applied
            && (t in w1.st.Tracked(s.id) && t !in Protected(w1.sources) ==> t !in Live(st'.Groups()))
  {
    RunConsistent(w, steps);
    var w1 := Run(w, steps);
    TickRows(w1.st, w1.sources, rows);
    assert RowsAfter(w1.st, s, Tick(w1.st, w1.sources, rows, NO_FAULTS));
    if t in w1.st.Tracked(s.id) && t !in Protected(w1.sources) {
      TickOutsideProtected(w1.st, w1.sources, rows, t);
      assert t in Claims(w1.st, s);
    }
  }

  // ---- entries that no source has anything to do with --------------------------------------------

  /** `u` contains everything that is tracked and everything that some source wants. */
  ghost predicate Covers(u: set<Entry>, st: State, sources: seq<Source>) {
    && (forall id :: st.Tracked(id) <= u)
    && (forall s :: s in sources ==> Wants(s) <= u)
  }

  /** Outside `u`, lists keep their members, order and multiplicity, and all other fields are the same. */
  ghost predicate SameOutside(u: set<Entry>, a: State, b: State) {
    Strip(a.Groups(), u) == Strip(b.Groups(), u) && a.config.settings == b.config.settings
  }

  lemma RemoveOutside(st: State, s: Source, p: set<Entry>, faults: Faults, u: set<Entry>)
    requires st.Tracked(s.id) <= u && Wants(s) <= u
    ensures var r := RemoveSource(st, s, p, faults);
            r.Done? ==> SameOutside(u, st, r.state) && r.state.tracked == st.tracked - {s.id}
  {
    StripTwice(st.Groups(), RemovalTarget(st, s) - p, u);
  }

  lemma ReconcileOutside(groups: seq<Group>, s: Source, previous: set<Entry>, u: set<Entry>)
    requires previous <= u && Wants(s) <= u
    ensures Strip(Reconcile(groups, Desired(s), previous), u) == Strip(groups, u)
  {
    var gone, missing := previous - Wants(s), Missing(Desired(s), groups);
    StripTwice(groups, gone, u);
    forall t | t in missing ensures t in u {
      assert t in Wants(s);
    }
    StripExtended(Strip(groups, gone), missing, u);
  }

  lemma ApplyOutside(st: State, s: Source, faults: Faults, u: set<Entry>)
    requires st.Tracked(s.id) <= u && Wants(s) <= u
    ensures var r := ApplySource(st, s, faults);
            r.Done? ==> SameOutside(u, st, r.state) && r.state.tracked == SetTracked(st.tracked, s.id, Wants(s))
  {
    ReconcileOutside(st.Groups(), s, st.Tracked(s.id), u);
  }

  lemma EvaluateOutside(st: State, s: Source, p: set<Entry>, faults: Faults, u: set<Entry>)
    requires (forall id :: st.Tracked(id) <= u) && Wants(s) <= u
    ensures var st' := Evaluate(st, s, p, faults).0;
            SameOutside(u, st, st') && forall id :: st'.Tracked(id) <= u
  {
    if s.open {
      ApplyOutside(st, s, faults, u);
      if ApplySource(st, s, faults).Done? {
        TrackedWithin(st, Evaluate(st, s, p, faults).0, s.id, Wants(s), u);
      }
    } else if s.id in st.applied {
      RemoveOutside(st, s, p, faults, u);
      if RemoveSource(st, s, p, faults).Done? {
        TrackedWithin(st, Evaluate(st, s, p, faults).0, s.id, {}, u);
      }
    }
  }

  lemma TrackedWithin(a: State, b: State, id: string, w: set<Entry>, u: set<Entry>)
    requires (forall x :: a.Tracked(x) <= u) && w <= u
    requires b.tracked == SetTracked(a.tracked, id, w)
    ensures forall x :: b.Tracked(x) <= u
  {
    forall x ensures b.Tracked(x) <= u {
      assert a.Tracked(x) <= u;
    }
  }

  lemma CleanupOutside(st: State, id: string, sources: seq<Source>, p: set<Entry>, faults: Faults, u: set<Entry>)
    requires Covers(u, st, sources)
    ensures var st' := Cleanup(st, id, sources, p, faults).0; SameOutside(u, st, st') && Covers(u, st', sources)
  {
    var st' := Cleanup(st, id, sources, p, faults).0;
    var i := FindSource(sources, id);
    if i >= 0 {
      assert sources[i] in sources;
      RemoveOutside(st, sources[i], p, faults, u);
    }
    forall x ensures st'.Tracked(x) <= u {
      assert st.Tracked(x) <= u;
    }
  }

  lemma {:induction false} CleanupAllOutside(st: State, rows: seq<string>, sources: seq<Source>, p: set<Entry>,
                                             faults: Faults, u: set<Entry>)
    requires Covers(u, st, sources)
    ensures var st' := CleanupAll(st, rows, sources, p, faults); SameOutside(u, st, st') && Covers(u, st', sources)
  {
    if rows != [] {
      var n := |rows| - 1;
      CleanupAllOutside(st, rows[..n], sources, p, faults, u);
      CleanupOutside(CleanupAll(st, rows[..n], sources, p, faults), rows[n], sources, p, faults, u);
    }
  }

  lemma {:induction false} EvaluateAllOutside(st: State, vs: seq<Source>, p: set<Entry>, faults: Faults, u: set<Entry>)
    requires Covers(u, st, vs)
    ensures var st' := EvaluateAll(st, vs, p, faults); SameOutside(u, st, st') && forall id :: st'.Tracked(id) <= u
  {
    if vs != [] {
      var n := |vs| - 1;
      assert vs[n] in vs && forall s :: s in vs[..n] ==> s in vs;
      EvaluateAllOutside(st, vs[..n], p, faults, u);
      EvaluateOutside(EvaluateAll(st, vs[..n], p, faults), vs[n], p, faults, u);
    }
  }

  lemma TickOutside(st: State, sources: seq<Source>, rows: seq<string>, faults: Faults, u: set<Entry>)
    requires Covers(u, st, sources)
    ensures var st' := Tick(st, sources, rows, faults); SameOutside(u, st, st') && Covers(u, st', sources)
  {
    var p, stale := Protected(sources), StaleRows(rows, sources);
    CleanupAllOutside(st, stale, sources, p, faults, u);
    EvaluateAllOutside(CleanupAll(st, stale, sources, p, faults), Rotation(sources), p, faults, u);
  }

  /** No step of the run edits the configuration from outside, and no definition ever wants anything outside `u`. */
  ghost predicate StaysWithin(u: set<Entry>, steps: seq<Step>) {
    forall i :: 0 <= i < |steps| ==>
      && !steps[i].OutsideEdit?
      && (steps[i].Redefine? ==> forall s :: s in steps[i].sources ==> Wants(s) <= u)
  }

  /** Over every run, whatever fails, the evaluator leaves everything outside `u` exactly as it was: members, order and
      multiplicity of every list, every other field, and every group that shares its name with an earlier one. */
  lemma {:induction false} RunLeavesOthersAlone(w: World, steps: seq<Step>, u: set<Entry>)
    requires ValidRun(w, steps) && Covers(u, w.st, w.sources) && StaysWithin(u, steps)
    ensures SameOutside(u, w.st, Run(w, steps).st)
    ensures Covers(u, Run(w, steps).st, Run(w, steps).sources)
  {
    if steps != [] {
      var n := |steps| - 1;
      assert forall i :: 0 <= i < n ==> steps[..n][i] == steps[i];
      RunLeavesOthersAlone(w, steps[..n], u);
      var w1, w2 := Run(w, steps[..n]), Run(w, steps);
      match steps[n]
      case TickStep(rows, faults) => TickOutside(w1.st, w1.sources, rows, faults, u);
      case Redefine(_) =>
        forall id ensures w2.st.Tracked(id) <= u {
          assert w1.st.Tracked(id) <= u;
        }
      case AbortedTick =>
    }
  }
}
