/** Single-node applies: what one apply, two applies and whole runs of applies do. */
module DomainGroupRuns {
  import opened Strings
  import opened Options
  import opened Sequences
  import opened DomainGroupModel
  import opened DomainGroupEffects
  import opened DomainGroupCommit
  import opened DomainGroupPreview

  datatype State = State(groups: seq<Group>, tracking: Tracking)

  datatype Outcome = Refused | Errored | Done

  /** A failed load or write has no effect. */
  datatype Faults = Faults(load: bool, write: bool)

  /** `trackedPairs`: the distinct pairs of the tracking table in the order the table yields them. */
  function Apply(st: State, lib: Library, trackedPairs: seq<Pair>, faults: Faults): (State, Outcome) {
    var rows := Rows(lib);
    if Conflicts(rows, KeysOf(rows)) != [] then (st, Refused)
    else if faults.load then (st, Errored)
    else
      var next := ApplyToGroups(st.groups, Buckets(rows), Owned(lib), st.tracking, trackedPairs);
      if next != st.groups && faults.write then (st, Errored)
      else
        var deletes := Unbound(trackedPairs, ToSet(Owned(lib)));
        match CommitAll(st.tracking, Writes(Buckets(rows), Owned(lib)), deletes)
        case Committed(t) => (State(next, t), Done)
        case Broken(t) => (State(next, t), Errored)
  }

  /** What a library materialises for one list. */
  function Wanted(lib: Library, p: Pair, m: MatchType): seq<string> {
    Materialized(Buckets(Rows(lib)), p.key, p.action, m)
  }

  function ListOf(st: State, p: Pair, m: MatchType): seq<string> {
    OldList(Find(st.groups, p.key), p.action, m)
  }

  function TrackedBy(st: State, p: Pair): set<string> {
    Tracked(st.tracking, p)
  }

  // ---- one apply -------------------------------------------------------------------------------

  lemma DoneState(st: State, lib: Library, trackedPairs: seq<Pair>, faults: Faults)
    requires Apply(st, lib, trackedPairs, faults).1 == Done
    ensures var r := CommitAll(st.tracking, Writes(Buckets(Rows(lib)), Owned(lib)), Unbound(trackedPairs, ToSet(Owned(lib))));
            && r.Committed?
            && Apply(st, lib, trackedPairs, faults).0 ==
               State(ApplyToGroups(st.groups, Buckets(Rows(lib)), Owned(lib), st.tracking, trackedPairs), r.t)
  {
  }

  lemma ValuesSet(lib: Library, p: Pair)
    ensures ToSet(Values(Buckets(Rows(lib)), p)) == ToSet(Wanted(lib, p, Exact)) + ToSet(Wanted(lib, p, Regex))
    ensures p !in Owned(lib) ==> Wanted(lib, p, Exact) == [] && Wanted(lib, p, Regex) == []
  {
    PreviewFits(lib);
    UnownedListEmpty(Buckets(Rows(lib)), Owned(lib), p.key, p.action, Exact);
    UnownedListEmpty(Buckets(Rows(lib)), Owned(lib), p.key, p.action, Regex);
  }

  lemma ApplyDoneTracking(st: State, lib: Library, trackedPairs: seq<Pair>, faults: Faults, p: Pair)
    requires ListsPairs(trackedPairs, st.tracking) && Apply(st, lib, trackedPairs, faults).1 == Done
    ensures TrackedBy(Apply(st, lib, trackedPairs, faults).0, p) ==
            ToSet(Wanted(lib, p, Exact)) + ToSet(Wanted(lib, p, Regex))
    ensures p in Owned(lib) ==> NoDuplicates(Wanted(lib, p, Exact) + Wanted(lib, p, Regex))
  {
    DoneState(st, lib, trackedPairs, faults);
    PreviewFits(lib);
    CommitRecordsMaterialized(Buckets(Rows(lib)), Owned(lib), st.tracking, trackedPairs);
    ValuesSet(lib, p);
  }

  lemma ApplyDoneList(st: State, lib: Library, trackedPairs: seq<Pair>, faults: Faults, p: Pair, m: MatchType)
    requires ListsPairs(trackedPairs, st.tracking) && Apply(st, lib, trackedPairs, faults).1 == Done
    ensures ListOf(Apply(st, lib, trackedPairs, faults).0, p, m) ==
            ListAfter(st.groups, Buckets(Rows(lib)), Owned(lib), st.tracking, p.key, p.action, m)
    ensures Find(Apply(st, lib, trackedPairs, faults).0.groups, p.key).Some? <==>
            Find(st.groups, p.key).Some? || p.key in Keys(Buckets(Rows(lib)))
  {
    DoneState(st, lib, trackedPairs, faults);
    PreviewFits(lib);
    PassesComputeNextList(st.groups, Buckets(Rows(lib)), Owned(lib), st.tracking, trackedPairs, p.key, p.action, m);
  }

  /** An apply that went through: every list is (old minus tracked) plus materialised, and what is tracked afterwards is
      what was materialised. */
  lemma ApplyDone(st: State, lib: Library, trackedPairs: seq<Pair>, faults: Faults, p: Pair, m: MatchType)
    requires ListsPairs(trackedPairs, st.tracking) && Apply(st, lib, trackedPairs, faults).1 == Done
    ensures var st' := Apply(st, lib, trackedPairs, faults).0;
            && ToSet(ListOf(st', p, m)) == (ToSet(ListOf(st, p, m)) - TrackedBy(st, p)) + ToSet(Wanted(lib, p, m))
            && TrackedBy(st', p) == ToSet(Wanted(lib, p, Exact)) + ToSet(Wanted(lib, p, Regex))
  {
    DoneState(st, lib, trackedPairs, faults);
    PreviewFits(lib);
    NewListIsOldMinusTrackedPlusMaterialized(st.groups, Buckets(Rows(lib)), Owned(lib), st.tracking, trackedPairs,
                                             p.key, p.action, m);
    ApplyDoneTracking(st, lib, trackedPairs, faults, p);
  }

  /** The preview's test for an owned pair that still needs an apply. */
  predicate IsPending(lib: Library, tracking: Tracking, p: Pair) {
    var values := Wanted(lib, p, Exact) + Wanted(lib, p, Regex);
    |Tracked(tracking, p)| != |values| || exists v | v in values :: v !in Tracked(tracking, p)
  }

  /** After an apply that went through, a recomputed preview has no pending pair. */
  lemma NothingPendingAfterApply(st: State, lib: Library, trackedPairs: seq<Pair>, faults: Faults, p: Pair)
    requires ListsPairs(trackedPairs, st.tracking) && Apply(st, lib, trackedPairs, faults).1 == Done
    requires p in Owned(lib)
    ensures !IsPending(lib, Apply(st, lib, trackedPairs, faults).0.tracking, p)
  {
    ApplyDoneTracking(st, lib, trackedPairs, faults, p);
    SizeOfDistinct(Wanted(lib, p, Exact) + Wanted(lib, p, Regex));
    assert ToSet(Wanted(lib, p, Exact) + Wanted(lib, p, Regex)) ==
           ToSet(Wanted(lib, p, Exact)) + ToSet(Wanted(lib, p, Regex));
  }

  // ---- entries nobody materialised -----------------------------------------------------------------

  /** `u(p)` contains everything tracked for `p` and everything the library materialises for it. */
  ghost predicate Covers(u: Pair -> set<string>, tracking: Tracking) {
    forall p :: Tracked(tracking, p) <= u(p)
  }

  ghost predicate WantsWithin(u: Pair -> set<string>, lib: Library) {
    forall p, m :: ToSet(Wanted(lib, p, m)) <= u(p)
  }

  /** The entries of a list outside `drop`, in order, each once. */
  function View(list: seq<string>, drop: set<string>): seq<string> {
    Dedup(Without(list, drop))
  }

  lemma MergeView(list: seq<string>, tracked: set<string>, wanted: seq<string>, drop: set<string>)
    requires tracked <= drop && forall v :: v in wanted ==> v in drop
    ensures View(Dedup(Without(list, tracked) + wanted), drop) == View(list, drop)
  {
    var merged := Without(list, tracked) + wanted;
    WithoutDedup(merged, drop);
    DedupTwice(Without(merged, drop));
    WithoutConcat(Without(list, tracked), wanted, drop);
    WithoutAll(wanted, drop);
    WithoutTwice(list, tracked, drop);
    Nil(Without(list, drop));
  }

  lemma DropView(list: seq<string>, tracked: set<string>, drop: set<string>)
    requires tracked <= drop
    ensures View(Without(Dedup(list), tracked), drop) == View(list, drop)
    ensures View(Without(list, tracked), drop) == View(list, drop)
  {
    WithoutTwice(Dedup(list), tracked, drop);
    WithoutTwice(list, tracked, drop);
    WithoutDedup(list, drop);
    DedupTwice(Without(list, drop));
  }

  lemma NextListView(before: Option<Group>, bucket: Option<Group>, owned: bool, tracked: set<string>, a: Action,
                     m: MatchType, drop: set<string>)
    requires tracked <= drop
    requires forall v :: v in OldList(bucket, a, m) ==> v in drop
    ensures View(NextList(before, bucket, owned, tracked, a, m), drop) == View(OldList(before, a, m), drop)
  {
    var list, wanted := OldList(before, a, m), OldList(bucket, a, m);
    DropView(list, tracked, drop);
    DropView([], tracked, drop);
    MergeView(list, tracked, wanted, drop);
    WithoutAll(wanted, drop);
  }

  lemma {:induction false} InsertWithin(u: Pair -> set<string>, t: Tracking, p: Pair, values: seq<string>)
    requires Covers(u, t) && forall v :: v in values ==> v in u(p)
    ensures Covers(u, InsertRows(t, p, values).t)
  {
    if values != [] {
      var n := |values| - 1;
      InsertWithin(u, t, p, values[..n]);
      var t' := InsertRows(t, p, values[..n]).t;
      assert values[n] in u(p);
      forall q ensures Tracked(AddRow(t', p, values[n]), q) <= u(q) {
        assert Tracked(t', q) <= u(q);
      }
    }
  }

  lemma {:induction false} CommitWithin(u: Pair -> set<string>, t: Tracking, writes: seq<Write>)
    requires Covers(u, t) && forall w, v :: w in writes && v in w.values ==> v in u(w.pair)
    ensures Covers(u, CommitWrites(t, writes).t)
  {
    if writes != [] {
      var n := |writes| - 1;
      assert forall w :: w in writes[..n] ==> w in writes;
      CommitWithin(u, t, writes[..n]);
      var t' := CommitWrites(t, writes[..n]).t;
      assert writes[n] in writes;
      forall q ensures Tracked(t' - {writes[n].pair}, q) <= u(q) {
        assert Tracked(t', q) <= u(q);
      }
      InsertWithin(u, t' - {writes[n].pair}, writes[n].pair, writes[n].values);
    }
  }

  lemma WritesWithin(u: Pair -> set<string>, lib: Library)
    requires WantsWithin(u, lib)
    ensures forall w, v :: w in Writes(Buckets(Rows(lib)), Owned(lib)) && v in w.values ==> v in u(w.pair)
  {
    var buckets, owned := Buckets(Rows(lib)), Owned(lib);
    PreviewFits(lib);
    FirstWritesAre(buckets, ToSet(owned), buckets);
    forall w, v | w in FirstWrites(buckets, ToSet(owned)) && v in w.values ensures v in u(w.pair) {
      assert v in ToSet(Wanted(lib, w.pair, Exact)) || v in ToSet(Wanted(lib, w.pair, Regex));
    }
  }

  /** One apply, whatever its outcome, keeps every entry outside `u`, in the same relative order. */
  lemma ApplyKeepsOthers(st: State, lib: Library, trackedPairs: seq<Pair>, faults: Faults, u: Pair -> set<string>)
    requires ListsPairs(trackedPairs, st.tracking) && Covers(u, st.tracking) && WantsWithin(u, lib)
    ensures var st' := Apply(st, lib, trackedPairs, faults).0;
            && Covers(u, st'.tracking)
            && Extends(st.groups, st'.groups)
            && forall p, m :: View(ListOf(st', p, m), u(p)) == View(ListOf(st, p, m), u(p))
  {
    var st' := Apply(st, lib, trackedPairs, faults).0;
    var buckets, owned := Buckets(Rows(lib)), Owned(lib);
    PreviewFits(lib);
    PassesExtend(st.groups, buckets, owned, st.tracking, trackedPairs);
    CommitAllWithin(u, st.tracking, lib, trackedPairs);
    if st'.groups != st.groups {
      forall p, m ensures View(ListOf(st', p, m), u(p)) == View(ListOf(st, p, m), u(p)) {
        PassesComputeNextList(st.groups, buckets, owned, st.tracking, trackedPairs, p.key, p.action, m);
        assert ToSet(Wanted(lib, p, m)) <= u(p) && Tracked(st.tracking, p) <= u(p);
        forall v | v in Wanted(lib, p, m) ensures v in u(p) {
          assert v in ToSet(Wanted(lib, p, m));
        }
        NextListView(Find(st.groups, p.key), Bucket(buckets, p.key), p in owned, Tracked(st.tracking, p), p.action, m, u(p));
      }
    }
  }

  lemma CommitAllWithin(u: Pair -> set<string>, t: Tracking, lib: Library, trackedPairs: seq<Pair>)
    requires Covers(u, t) && WantsWithin(u, lib)
    ensures Covers(u, CommitAll(t, Writes(Buckets(Rows(lib)), Owned(lib)), Unbound(trackedPairs, ToSet(Owned(lib)))).t)
  {
    var writes, deletes := Writes(Buckets(Rows(lib)), Owned(lib)), Unbound(trackedPairs, ToSet(Owned(lib)));
    WritesWithin(u, lib);
    CommitWithin(u, t, writes);
    var t' := CommitWrites(t, writes).t;
    forall p ensures Tracked(t' - ToSet(deletes), p) <= u(p) {
      assert Tracked(t', p) <= u(p);
    }
  }

  // ---- runs ------------------------------------------------------------------------------------

  /** One apply request: the library as it is then, the order of the tracking table, and what fails. */
  datatype Step = Step(lib: Library, trackedPairs: seq<Pair>, faults: Faults)

  function Run(st: State, steps: seq<Step>): State {
    if steps == [] then st
    else
      var last := steps[|steps| - 1];
      Apply(Run(st, steps[..|steps| - 1]), last.lib, last.trackedPairs, last.faults).0
  }

  ghost predicate ValidRun(st: State, steps: seq<Step>) {
    steps != [] ==>
      && ValidRun(st, steps[..|steps| - 1])
      && ListsPairs(steps[|steps| - 1].trackedPairs, Run(st, steps[..|steps| - 1]).tracking)
  }

  /** Through any sequence of applies, with arbitrary edits of bindings and entries in between and whatever fails: no
      group is lost or renamed, and an entry that was not tracked at the start and is never materialised for its group
      and action stays, in the same relative order. */
  lemma {:induction false} RunKeepsUserEntries(st: State, steps: seq<Step>, u: Pair -> set<string>)
    requires ValidRun(st, steps) && Covers(u, st.tracking)
    requires forall i :: 0 <= i < |steps| ==> WantsWithin(u, steps[i].lib)
    ensures var st' := Run(st, steps);
            && Covers(u, st'.tracking)
            && Extends(st.groups, st'.groups)
            && forall p, m :: View(ListOf(st', p, m), u(p)) == View(ListOf(st, p, m), u(p))
  {
    if steps != [] {
      var n := |steps| - 1;
      RunKeepsUserEntries(st, steps[..n], u);
      var st1 := Run(st, steps[..n]);
      ApplyKeepsOthers(st1, steps[n].lib, steps[n].trackedPairs, steps[n].faults, u);
      ExtendsTransitive(st.groups, st1.groups, Run(st, steps).groups);
    }
  }

  // ---- binding and unbinding -------------------------------------------------------------------------

  lemma BindUnbindList(list: seq<string>, wanted: seq<string>, tracked: set<string>, found: bool)
    requires NoDuplicates(list) && ToSet(wanted) <= tracked
    ensures var bound := Dedup(Without(list, {}) + wanted);
            Without(if found then Dedup(bound) else bound, tracked) == Without(list, tracked)
  {
    var joined := list + wanted;
    WithoutNothing(list);
    DedupTwice(joined);
    WithoutDedup(joined, tracked);
    WithoutConcat(list, wanted, tracked);
    forall x | x in wanted ensures x in tracked {
      assert x in ToSet(wanted);
    }
    WithoutAll(wanted, tracked);
    Nil(Without(list, tracked));
    WithoutDedup(list, tracked);
    DedupOfDistinct(list);
  }

  lemma BindUnbindStages(before: Option<Group>, after: Option<Group>, bucket1: Option<Group>, bucket2: Option<Group>,
                         tracked: set<string>, a: Action, m: MatchType)
    requires before.Some? && after.Some? && NoDuplicates(OldList(before, a, m))
    requires ToSet(OldList(bucket1, a, m)) <= tracked
    requires OldList(after, a, m) == NextList(before, bucket1, true, {}, a, m)
    ensures NextList(after, bucket2, false, tracked, a, m) == Without(OldList(before, a, m), tracked)
  {
    var list := OldList(before, a, m);
    BindUnbindList(list, OldList(bucket1, a, m), tracked, bucket2.Some?);
    WithoutNothing(list);
    Nil(list);
    DedupOfDistinct(list);
  }

  /** Both lists of a pair, after it was bound and applied by `lib1` and then unbound and applied by `lib2`. */
  lemma BindUnbindComputes(st: State, lib1: Library, pairs1: seq<Pair>, lib2: Library, pairs2: seq<Pair>,
                           faults1: Faults, faults2: Faults, p: Pair, m: MatchType)
    requires ListsPairs(pairs1, st.tracking) && Apply(st, lib1, pairs1, faults1).1 == Done
    requires var st1 := Apply(st, lib1, pairs1, faults1).0;
             ListsPairs(pairs2, st1.tracking) && Apply(st1, lib2, pairs2, faults2).1 == Done
    requires TrackedBy(st, p) == {} && Find(st.groups, p.key).Some? && NoDuplicates(ListOf(st, p, m))
    requires p in Owned(lib1) && p !in Owned(lib2)
    ensures var st2 := Apply(Apply(st, lib1, pairs1, faults1).0, lib2, pairs2, faults2).0;
            ListOf(st2, p, m) == Without(ListOf(st, p, m), ToSet(Wanted(lib1, p, Exact)) + ToSet(Wanted(lib1, p, Regex)))
  {
    var st1 := Apply(st, lib1, pairs1, faults1).0;
    var tracked := ToSet(Wanted(lib1, p, Exact)) + ToSet(Wanted(lib1, p, Regex));
    ApplyDoneList(st, lib1, pairs1, faults1, p, m);
    ApplyDoneTracking(st, lib1, pairs1, faults1, p);
    ApplyDoneList(st1, lib2, pairs2, faults2, p, m);
    assert m == Exact || m == Regex;
    BindUnbindStages(Find(st.groups, p.key), Find(st1.groups, p.key), Bucket(Buckets(Rows(lib1)), p.key),
                     Bucket(Buckets(Rows(lib2)), p.key), tracked, p.action, m);
  }

  /** Bind, apply, unbind, apply gives an existing group its duplicate-free lists back exactly when nothing that was
      materialised for the pair was already in either of its two lists: tracking does not record the match type, so an
      exact entry also takes an equal regex along. */
  lemma BindUnbindRestoresIff(st: State, lib1: Library, pairs1: seq<Pair>, lib2: Library, pairs2: seq<Pair>,
                              faults1: Faults, faults2: Faults, p: Pair)
    requires ListsPairs(pairs1, st.tracking) && Apply(st, lib1, pairs1, faults1).1 == Done
    requires var st1 := Apply(st, lib1, pairs1, faults1).0;
             ListsPairs(pairs2, st1.tracking) && Apply(st1, lib2, pairs2, faults2).1 == Done
    requires TrackedBy(st, p) == {} && Find(st.groups, p.key).Some?
    requires NoDuplicates(ListOf(st, p, Exact)) && NoDuplicates(ListOf(st, p, Regex))
    requires p in Owned(lib1) && p !in Owned(lib2)
    ensures var st2 := Apply(Apply(st, lib1, pairs1, faults1).0, lib2, pairs2, faults2).0;
            ListOf(st2, p, Exact) == ListOf(st, p, Exact) && ListOf(st2, p, Regex) == ListOf(st, p, Regex) <==>
            forall v :: v in Wanted(lib1, p, Exact) || v in Wanted(lib1, p, Regex) ==>
              v !in ListOf(st, p, Exact) && v !in ListOf(st, p, Regex)
  {
    var exact, regex := Wanted(lib1, p, Exact), Wanted(lib1, p, Regex);
    BindUnbindComputes(st, lib1, pairs1, lib2, pairs2, faults1, faults2, p, Exact);
    BindUnbindComputes(st, lib1, pairs1, lib2, pairs2, faults1, faults2, p, Regex);
    BothRestoredIff(ListOf(st, p, Exact), ListOf(st, p, Regex), exact, regex);
  }

  lemma BothRestoredIff(a: seq<string>, b: seq<string>, exact: seq<string>, regex: seq<string>)
    ensures var tracked := ToSet(exact) + ToSet(regex);
            Without(a, tracked) == a && Without(b, tracked) == b <==>
            forall v :: v in exact || v in regex ==> v !in a && v !in b
  {
    WithoutSameIff(a, ToSet(exact) + ToSet(regex));
    WithoutSameIff(b, ToSet(exact) + ToSet(regex));
  }
}
