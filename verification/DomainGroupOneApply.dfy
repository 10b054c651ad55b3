/** When one apply of a library is enough: the exact condition, and the two ways in which a second apply still changes
    the configuration. */
module DomainGroupOneApply {
  import opened Strings
  import opened Options
  import opened Sequences
  import opened DomainGroupModel
  import opened DomainGroupEffects
  import opened DomainGroupCommit
  import opened DomainGroupPreview
  import opened DomainGroupRuns
  import opened DomainGroupConvergence

  // ---- one list --------------------------------------------------------------------------------------

  lemma {:induction false} DedupAppends(kept: seq<string>, wanted: seq<string>)
    requires NoDuplicates(kept) && NoDuplicates(wanted)
    ensures Dedup(kept + wanted) == kept + Without(wanted, ToSet(kept))
  {
    if |wanted| == 0 {
      Nil(kept);
      DedupOfDistinct(kept);
    } else {
      var n := |wanted| - 1;
      var init, x := wanted[..n], wanted[n];
      DedupAppends(kept, init);
      InitLast(wanted);
      Assoc(kept, init, [x]);
      DedupStep(kept + init, x);
      WithoutStep(init, x, ToSet(kept));
      Assoc(kept, Without(init, ToSet(kept)), [x]);
      assert x !in init;
      assert x in kept <==> x in ToSet(kept);
      assert x in Dedup(kept + init) <==> x in kept;
      Nil(Without(init, ToSet(kept)));
    }
  }

  /** `kept` is its own part outside `all`, followed by a beginning of `wanted`. */
  ghost predicate InPlace(kept: seq<string>, wanted: seq<string>, all: set<string>) {
    exists k :: 0 <= k <= |wanted| && kept == Without(kept, all) + wanted[..k]
  }

  lemma WithoutDistinct(s: seq<string>, drop: set<string>)
    requires NoDuplicates(s)
    ensures NoDuplicates(Without(s, drop))
  {
    DedupOfDistinct(s);
    WithoutDedup(s, drop);
    DedupDistinct(Without(s, drop));
  }

  /** What a second merge makes of the first one's list. */
  lemma SecondMerge(kept: seq<string>, wanted: seq<string>, all: set<string>)
    requires NoDuplicates(kept) && NoDuplicates(wanted) && ToSet(wanted) <= all
    ensures Dedup(Without(kept + Without(wanted, ToSet(kept)), all) + wanted) == Without(kept, all) + wanted
  {
    var more, outside := Without(wanted, ToSet(kept)), Without(kept, all);
    forall v | v in more ensures v in all {
      assert v in ToSet(wanted);
    }
    WithoutConcat(kept, more, all);
    WithoutAll(more, all);
    Nil(outside);
    WithoutDistinct(kept, all);
    DedupAppends(outside, wanted);
    forall v | v in wanted ensures v !in ToSet(outside) {
      assert v in ToSet(wanted);
    }
    WithoutDisjoint(wanted, ToSet(outside));
  }

  lemma PrefixOf(a: seq<string>, b: seq<string>, outside: seq<string>, wanted: seq<string>)
    requires a + b == outside + wanted && |outside| <= |a|
    ensures a == outside + wanted[..|a| - |outside|]
  {
    assert a == (a + b)[..|a|];
  }

  lemma RestOfWanted(kept: seq<string>, wanted: seq<string>, all: set<string>, k: nat)
    requires NoDuplicates(wanted) && ToSet(wanted) <= all
    requires k <= |wanted| && kept == Without(kept, all) + wanted[..k]
    ensures Without(wanted, ToSet(kept)) == wanted[k..]
  {
    var first, rest := wanted[..k], wanted[k..];
    assert wanted == first + rest;
    forall v | v in first ensures v in ToSet(kept) {
      assert v in Without(kept, all) + first;
    }
    forall v | v in rest ensures v !in ToSet(kept) {
      assert v in ToSet(wanted);
      var j :| 0 <= j < |rest| && rest[j] == v;
      assert wanted[k + j] == v;
      assert v !in first;
    }
    WithoutConcat(first, rest, ToSet(kept));
    WithoutAll(first, ToSet(kept));
    WithoutDisjoint(rest, ToSet(kept));
    Nil(rest);
  }

  lemma AgreeingIsInPlace(kept: seq<string>, wanted: seq<string>, all: set<string>)
    requires kept + Without(wanted, ToSet(kept)) == Without(kept, all) + wanted
    ensures InPlace(kept, wanted, all)
  {
    var outside, rest := Without(kept, all), Without(wanted, ToSet(kept));
    WithoutLength(kept, all);
    PrefixOf(kept, rest, outside, wanted);
    assert |kept| + |rest| == |outside| + |wanted|;
  }

  lemma InPlaceAgrees(kept: seq<string>, wanted: seq<string>, all: set<string>, k: nat)
    requires NoDuplicates(wanted) && ToSet(wanted) <= all
    requires k <= |wanted| && kept == Without(kept, all) + wanted[..k]
    ensures kept + Without(wanted, ToSet(kept)) == Without(kept, all) + wanted
  {
    var outside := Without(kept, all);
    RestOfWanted(kept, wanted, all, k);
    Assoc(outside, wanted[..k], wanted[k..]);
    SplitAt(wanted, k);
  }

  lemma SplitAt(s: seq<string>, k: nat)
    requires k <= |s|
    ensures s[..k] + s[k..] == s
  {
  }

  lemma MergesAgreeIff(kept: seq<string>, wanted: seq<string>, all: set<string>)
    requires NoDuplicates(wanted) && ToSet(wanted) <= all
    ensures kept + Without(wanted, ToSet(kept)) == Without(kept, all) + wanted <==> InPlace(kept, wanted, all)
  {
    if kept + Without(wanted, ToSet(kept)) == Without(kept, all) + wanted {
      AgreeingIsInPlace(kept, wanted, all);
    }
    if k :| 0 <= k <= |wanted| && kept == Without(kept, all) + wanted[..k] {
      InPlaceAgrees(kept, wanted, all, k);
    }
  }

  // ---- one list of the configuration -------------------------------------------------------------------

  /** What the first apply keeps of a list. */
  function Kept(st: State, p: Pair, m: MatchType): seq<string> {
    Dedup(Without(ListOf(st, p, m), TrackedBy(st, p)))
  }

  /** Everything the library materialises for a pair: the rows do not tell exact entries from regexes. */
  function AllWanted(lib: Library, p: Pair): set<string> {
    ToSet(Wanted(lib, p, Exact)) + ToSet(Wanted(lib, p, Regex))
  }

  lemma WantedDistinct(lib: Library, p: Pair, m: MatchType)
    ensures NoDuplicates(Wanted(lib, p, m))
  {
    MaterializedIff(Rows(lib), p.key, p.action, m, "");
  }

  /** The lists an existing group gets from the first and from the second apply. */
  lemma MergedLists(list: seq<string>, tracked: set<string>, wanted: seq<string>, all: set<string>)
    requires NoDuplicates(wanted) && ToSet(wanted) <= all
    ensures var kept := Dedup(Without(list, tracked));
            var once := Dedup(Without(list, tracked) + wanted);
            && once == kept + Without(wanted, ToSet(kept))
            && Dedup(Without(once, all) + wanted) == Without(kept, all) + wanted
  {
    var kept := Dedup(Without(list, tracked));
    DedupDistinct(Without(list, tracked));
    DedupConcat(Without(list, tracked), wanted);
    DedupAppends(kept, wanted);
    SecondMerge(kept, wanted, all);
  }

  lemma NothingInPlace(wanted: seq<string>, all: set<string>)
    ensures InPlace([], wanted, all)
  {
    assert [] == Without([], all) + wanted[..0];
  }

  lemma KeptInPlace(kept: seq<string>, wanted: seq<string>)
    ensures InPlace(kept, wanted, {})
  {
    WithoutNothing(kept);
    Nil(kept);
    assert kept == Without(kept, {}) + wanted[..0];
  }

  /** One owned list of one pair, from the group and the bucket alone. */
  lemma OwnedListIff(before: Option<Group>, after: Option<Group>, bucket: Option<Group>, tracked: set<string>,
                     all: set<string>, a: Action, m: MatchType)
    requires NoDuplicates(OldList(bucket, a, m)) && ToSet(OldList(bucket, a, m)) <= all && (bucket.None? ==> all == {})
    requires (bucket.Some? ==> after.Some?) && OldList(after, a, m) == NextList(before, bucket, true, tracked, a, m)
    ensures NextList(after, bucket, true, all, a, m) == OldList(after, a, m)
            <==> InPlace(Dedup(Without(OldList(before, a, m), tracked)), OldList(bucket, a, m), all)
  {
    var list, wanted := OldList(before, a, m), OldList(bucket, a, m);
    var kept := Dedup(Without(list, tracked));
    if bucket.None? {
      WithoutNothing(OldList(after, a, m));
      KeptInPlace(kept, wanted);
    } else if before.None? {
      NothingInPlace(wanted, all);
      forall v | v in wanted ensures v in all {
        assert v in ToSet(wanted);
      }
      WithoutAll(wanted, all);
      Nil(wanted);
      DedupOfDistinct(wanted);
    } else {
      MergedLists(list, tracked, wanted, all);
      MergesAgreeIff(kept, wanted, all);
    }
  }

  lemma UnownedListStays(before: Option<Group>, after: Option<Group>, bucket: Option<Group>, tracked: set<string>,
                         a: Action, m: MatchType)
    requires OldList(after, a, m) == NextList(before, bucket, false, tracked, a, m)
    ensures NextList(after, bucket, false, {}, a, m) == OldList(after, a, m)
  {
    var list := OldList(after, a, m);
    WithoutNothing(list);
    if bucket.Some? && before.Some? {
      DedupDistinct(OldList(before, a, m));
      WithoutDistinct(Dedup(OldList(before, a, m)), tracked);
      DedupOfDistinct(list);
    }
  }

  /** Two applies of one library went through, one right after the other. */
  ghost predicate AppliedTwice(st: State, lib: Library, pairs1: seq<Pair>, pairs2: seq<Pair>, faults1: Faults,
                               faults2: Faults)
  {
    && ListsPairs(pairs1, st.tracking) && Apply(st, lib, pairs1, faults1).1 == Done
    && var st1 := Apply(st, lib, pairs1, faults1).0;
       ListsPairs(pairs2, st1.tracking) && Apply(st1, lib, pairs2, faults2).1 == Done
  }

  lemma OwnedLists(before: Option<Group>, after: Option<Group>, bucket: Option<Group>, tracked: set<string>,
                   all: set<string>, a: Action, m: MatchType)
    requires before.Some? && after.Some? && bucket.Some?
    requires NoDuplicates(OldList(bucket, a, m)) && ToSet(OldList(bucket, a, m)) <= all
    requires OldList(after, a, m) == NextList(before, bucket, true, tracked, a, m)
    ensures var kept, wanted := Dedup(Without(OldList(before, a, m), tracked)), OldList(bucket, a, m);
            && OldList(after, a, m) == kept + Without(wanted, ToSet(kept))
            && NextList(after, bucket, true, all, a, m) == Without(kept, all) + wanted
  {
    MergedLists(OldList(before, a, m), tracked, OldList(bucket, a, m), all);
  }

  /** The lists of an owned pair of an existing group after the first and after the second apply. */
  lemma ListsOfTwoApplies(st: State, lib: Library, pairs1: seq<Pair>, pairs2: seq<Pair>, faults1: Faults,
                          faults2: Faults, p: Pair, m: MatchType)
    requires AppliedTwice(st, lib, pairs1, pairs2, faults1, faults2)
    requires p in Owned(lib) && Find(st.groups, p.key).Some? && Bucket(Buckets(Rows(lib)), p.key).Some?
    ensures var st1 := Apply(st, lib, pairs1, faults1).0;
            var kept, wanted := Kept(st, p, m), Wanted(lib, p, m);
            && ListOf(st1, p, m) == kept + Without(wanted, ToSet(kept))
            && ListOf(Apply(st1, lib, pairs2, faults2).0, p, m) == Without(kept, AllWanted(lib, p)) + wanted
  {
    var st1 := Apply(st, lib, pairs1, faults1).0;
    ApplyDoneList(st, lib, pairs1, faults1, p, m);
    ApplyDoneTracking(st, lib, pairs1, faults1, p);
    ApplyDoneList(st1, lib, pairs2, faults2, p, m);
    WantedDistinct(lib, p, m);
    OwnedLists(Find(st.groups, p.key), Find(st1.groups, p.key), Bucket(Buckets(Rows(lib)), p.key), TrackedBy(st, p),
               AllWanted(lib, p), p.action, m);
  }

  lemma ListStaysIff(st: State, lib: Library, pairs1: seq<Pair>, pairs2: seq<Pair>, faults1: Faults, faults2: Faults,
                     p: Pair, m: MatchType)
    requires AppliedTwice(st, lib, pairs1, pairs2, faults1, faults2)
    ensures var st1 := Apply(st, lib, pairs1, faults1).0;
            ListOf(Apply(st1, lib, pairs2, faults2).0, p, m) == ListOf(st1, p, m)
            <==> (p in Owned(lib) ==> InPlace(Kept(st, p, m), Wanted(lib, p, m), AllWanted(lib, p)))
  {
    var st1 := Apply(st, lib, pairs1, faults1).0;
    var bucket := Bucket(Buckets(Rows(lib)), p.key);
    ApplyDoneList(st, lib, pairs1, faults1, p, m);
    ApplyDoneTracking(st, lib, pairs1, faults1, p);
    ApplyDoneList(st1, lib, pairs2, faults2, p, m);
    FindInKeys(Buckets(Rows(lib)), p.key);
    WantedDistinct(lib, p, m);
    ValuesSet(lib, p);
    if p in Owned(lib) {
      OwnedListIff(Find(st.groups, p.key), Find(st1.groups, p.key), bucket, TrackedBy(st, p), AllWanted(lib, p),
                   p.action, m);
    } else {
      UnownedListStays(Find(st.groups, p.key), Find(st1.groups, p.key), bucket, TrackedBy(st, p), p.action, m);
    }
  }

  // ---- the whole configuration ---------------------------------------------------------------------------

  ghost predicate ListStays(a: State, b: State, p: Pair, m: MatchType) {
    ListOf(b, p, m) == ListOf(a, p, m)
  }

  lemma ListsDecide(st1: State, lib: Library, pairs: seq<Pair>, faults: Faults)
    requires Settled(st1, lib) && Apply(st1, lib, pairs, faults).1 == Done
    requires forall p, m :: ListStays(st1, Apply(st1, lib, pairs, faults).0, p, m)
    ensures Apply(st1, lib, pairs, faults).0.groups == st1.groups
  {
    var st2 := Apply(st1, lib, pairs, faults).0;
    forall key, a, m ensures SameList(st1.groups, st2.groups, key, a, m) {
      assert ListStays(st1, st2, Pair(key, a), m);
    }
    DoneState(st1, lib, pairs, faults);
    PassesExtend(st1.groups, Buckets(Rows(lib)), Owned(lib), st1.tracking, pairs);
    SameLength(st1, lib, pairs);
    SameListsSameGroups(st1.groups, st2.groups);
  }

  /** Nothing a pair keeps is out of place. */
  ghost predicate PairInPlace(st: State, lib: Library, p: Pair, m: MatchType) {
    p in Owned(lib) ==> InPlace(Kept(st, p, m), Wanted(lib, p, m), AllWanted(lib, p))
  }

  /** The second of two successful applies changes no group exactly if, before the first, every list of every owned pair
      held those of its materialised values that it keeps at its end, as a beginning of what is materialised for it, and
      kept none that the pair materialises only for its other list. */
  lemma OneApplyIsEnoughIff(st: State, lib: Library, pairs1: seq<Pair>, pairs2: seq<Pair>, faults1: Faults,
                            faults2: Faults)
    requires AppliedTwice(st, lib, pairs1, pairs2, faults1, faults2)
    ensures var st1 := Apply(st, lib, pairs1, faults1).0;
            Apply(st1, lib, pairs2, faults2).0.groups == st1.groups <==> forall p, m :: PairInPlace(st, lib, p, m)
  {
    var st1 := Apply(st, lib, pairs1, faults1).0;
    var st2 := Apply(st1, lib, pairs2, faults2).0;
    forall p: Pair, m: MatchType ensures ListStays(st1, st2, p, m) <==> PairInPlace(st, lib, p, m) {
      ListStaysIff(st, lib, pairs1, pairs2, faults1, faults2, p, m);
    }
    if forall p, m :: PairInPlace(st, lib, p, m) {
      forall p: Pair, m: MatchType ensures ListStays(st1, st2, p, m) {
        assert PairInPlace(st, lib, p, m);
      }
      ApplySettles(st, lib, pairs1, faults1);
      ListsDecide(st1, lib, pairs2, faults2);
    }
    if st2.groups == st1.groups {
      forall p: Pair, m: MatchType ensures PairInPlace(st, lib, p, m) {
        assert ListStays(st1, st2, p, m);
      }
    }
  }

  // ---- a library with one entry ----------------------------------------------------------------------------

  /** One domain group `d` with one entry, bound to the group `g`. */
  function OneEntry(d: string, g: string, a: Action, m: MatchType, value: string): Library {
    Library([Binding(d, g, a)], map[d := [Entry(m, value)]])
  }

  lemma OneEntryRows(d: string, g: string, a: Action, m: MatchType, value: string, k: Key, act: Action)
    ensures HasRow(Rows(OneEntry(d, g, a, m, value)), k, act) <==> k == Key(Lower(g), m, value) && act == a
  {
    var lib := OneEntry(d, g, a, m, value);
    var row := Row(g, a, m, value);
    JoinIff(lib, lib.bindings, row);
    assert Binding(d, g, a) in lib.bindings && Entry(m, value) in lib.EntriesOf(d);
    assert row in Rows(lib);
    if r :| r in Rows(lib) && KeyOf(r) == k && r.action == act {
      JoinIff(lib, lib.bindings, r);
    }
  }

  lemma OneMember(s: seq<string>, x: string)
    requires NoDuplicates(s) && forall v :: v in s <==> v == x
    ensures s == [x]
  {
    SizeOfDistinct(s);
    assert ToSet(s) == {x};
    assert s[0] in s;
  }

  lemma OneEntryWanted(d: string, g: string, a: Action, m: MatchType, value: string, m': MatchType)
    ensures Wanted(OneEntry(d, g, a, m, value), Pair(Lower(g), a), m') == if m' == m then [value] else []
  {
    var lib, p := OneEntry(d, g, a, m, value), Pair(Lower(g), a);
    forall v ensures v in Wanted(lib, p, m') <==> m' == m && v == value {
      MaterializedIff(Rows(lib), p.key, a, m', v);
      OneEntryRows(d, g, a, m, value, Key(p.key, m', v), a);
      OneEntryRows(d, g, a, m, value, Key(p.key, m', v), if a == Allow then Block else Allow);
    }
    WantedDistinct(lib, p, m');
    if m' == m {
      OneMember(Wanted(lib, p, m'), value);
    } else {
      EmptyIffNoMember(Wanted(lib, p, m'));
    }
  }

  lemma OneEntryConflicts(d: string, g: string, a: Action, m: MatchType, value: string)
    ensures var rows := Rows(OneEntry(d, g, a, m, value)); Conflicts(rows, KeysOf(rows)) == []
  {
    var rows := Rows(OneEntry(d, g, a, m, value));
    ConflictsAre(rows, KeysOf(rows));
    forall k ensures k !in Conflicts(rows, KeysOf(rows)) {
      OneEntryRows(d, g, a, m, value, k, Allow);
      OneEntryRows(d, g, a, m, value, k, Block);
    }
    EmptyIffNoMember(Conflicts(rows, KeysOf(rows)));
  }

  const NO_FAULTS := Faults(false, false)

  /** The library materialises one value for the pair, in one of its lists. */
  ghost predicate WantsOne(lib: Library, p: Pair, m: MatchType, value: string) {
    && p in Owned(lib) && Bucket(Buckets(Rows(lib)), p.key).Some?
    && Wanted(lib, p, Exact) == (if m == Exact then [value] else [])
    && Wanted(lib, p, Regex) == (if m == Regex then [value] else [])
  }

  lemma OneEntryWantsOne(d: string, g: string, a: Action, m: MatchType, value: string)
    ensures WantsOne(OneEntry(d, g, a, m, value), Pair(Lower(g), a), m, value)
  {
    var lib := OneEntry(d, g, a, m, value);
    assert Owned(lib)[0] == Pair(Lower(g), a);
    OneEntryWanted(d, g, a, m, value, Exact);
    OneEntryWanted(d, g, a, m, value, Regex);
  }

  /** The library owns no other pair and has no conflict. */
  ghost predicate OwnsOne(lib: Library, p: Pair) {
    (forall q :: q in Owned(lib) <==> q == p) && Conflicts(Rows(lib), KeysOf(Rows(lib))) == []
  }

  lemma OneEntryOwnsOne(d: string, g: string, a: Action, m: MatchType, value: string)
    ensures OwnsOne(OneEntry(d, g, a, m, value), Pair(Lower(g), a))
  {
    var lib := OneEntry(d, g, a, m, value);
    assert Owned(lib)[0] == Pair(Lower(g), a);
    OneEntryConflicts(d, g, a, m, value);
  }

  lemma OneGoesThrough(st: State, lib: Library, p: Pair, m: MatchType, value: string, pairs: seq<Pair>)
    requires ListsPairs(pairs, st.tracking) && WantsOne(lib, p, m, value) && OwnsOne(lib, p)
    ensures Apply(st, lib, pairs, NO_FAULTS).1 == Done
  {
    var buckets := Buckets(Rows(lib));
    PreviewFits(lib);
    CommitRecordsMaterialized(buckets, Owned(lib), st.tracking, pairs);
    forall q | q in Owned(lib) ensures NoDuplicates(Values(buckets, q)) {
      assert Values(buckets, q) == Wanted(lib, p, Exact) + Wanted(lib, p, Regex);
    }
  }

  /** A pair is listed only if it has rows. */
  ghost predicate NoEmptyRows(t: Tracking) {
    forall q :: q in t ==> t[q] != {}
  }

  lemma {:induction false} InsertKeepsRows(t: Tracking, p: Pair, values: seq<string>)
    requires NoEmptyRows(t) && InsertRows(t, p, values).Committed?
    ensures NoEmptyRows(InsertRows(t, p, values).t)
  {
    if |values| > 0 {
      InsertKeepsRows(t, p, values[..|values| - 1]);
    }
  }

  lemma {:induction false} CommitKeepsRows(t: Tracking, writes: seq<Write>)
    requires NoEmptyRows(t) && CommitWrites(t, writes).Committed?
    ensures NoEmptyRows(CommitWrites(t, writes).t)
  {
    if |writes| > 0 {
      var w := writes[|writes| - 1];
      CommitKeepsRows(t, writes[..|writes| - 1]);
      InsertKeepsRows(CommitWrites(t, writes[..|writes| - 1]).t - {w.pair}, w.pair, w.values);
    }
  }

  lemma ApplyKeepsRows(st: State, lib: Library, pairs: seq<Pair>, faults: Faults)
    requires NoEmptyRows(st.tracking) && Apply(st, lib, pairs, faults).1 == Done
    ensures NoEmptyRows(Apply(st, lib, pairs, faults).0.tracking)
  {
    DoneState(st, lib, pairs, faults);
    CommitKeepsRows(st.tracking, Writes(Buckets(Rows(lib)), Owned(lib)));
  }

  lemma OneWanted(lib: Library, p: Pair, m: MatchType, value: string, q: Pair)
    requires WantsOne(lib, p, m, value) && OwnsOne(lib, p)
    ensures ToSet(Wanted(lib, q, Exact)) + ToSet(Wanted(lib, q, Regex)) == if q == p then {value} else {}
  {
    ValuesSet(lib, q);
    assert ToSet([value]) == {value};
  }

  lemma ListedIffTracked(t: Tracking, q: Pair)
    requires NoEmptyRows(t)
    ensures q in t <==> |Tracked(t, q)| > 0
  {
  }

  lemma OneTracked(st: State, lib: Library, p: Pair, m: MatchType, value: string, q: Pair)
    requires st.tracking == map[] && WantsOne(lib, p, m, value) && OwnsOne(lib, p)
    ensures q in [p] <==> q in Apply(st, lib, [], NO_FAULTS).0.tracking
  {
    OneGoesThrough(st, lib, p, m, value, []);
    ApplyDoneTracking(st, lib, [], NO_FAULTS, q);
    ApplyKeepsRows(st, lib, [], NO_FAULTS);
    OneWanted(lib, p, m, value, q);
    ListedIffTracked(Apply(st, lib, [], NO_FAULTS).0.tracking, q);
  }

  /** Two applies of such a library go through from any state that tracks nothing. */
  lemma OneAppliedTwice(st: State, lib: Library, p: Pair, m: MatchType, value: string)
    requires st.tracking == map[] && WantsOne(lib, p, m, value) && OwnsOne(lib, p)
    ensures AppliedTwice(st, lib, [], [p], NO_FAULTS, NO_FAULTS)
  {
    OneGoesThrough(st, lib, p, m, value, []);
    var st1 := Apply(st, lib, [], NO_FAULTS).0;
    forall q ensures q in [p] <==> q in st1.tracking {
      OneTracked(st, lib, p, m, value, q);
    }
    OneGoesThrough(st1, lib, p, m, value, [p]);
  }

  lemma AllOfOne(lib: Library, p: Pair, m: MatchType, value: string)
    requires WantsOne(lib, p, m, value)
    ensures AllWanted(lib, p) == {value}
  {
    assert ToSet([value]) == {value};
  }

  lemma KeptWithoutTracking(st: State, p: Pair, m: MatchType)
    requires st.tracking == map[]
    ensures Kept(st, p, m) == Dedup(ListOf(st, p, m))
  {
    WithoutNothing(ListOf(st, p, m));
  }

  // ---- what the second apply still changes ---------------------------------------------------------------------

  lemma SplitDistinct(before: seq<string>, x: string, after: seq<string>)
    requires NoDuplicates(before + [x] + after)
    ensures x !in before && x !in after && NoDuplicates(before + after + [x])
  {
    var list, moved, n := before + [x] + after, before + after + [x], |before|;
    assert list[n] == x;
    forall i | 0 <= i < |before| ensures before[i] != x {
      assert list[i] == before[i];
    }
    forall i | 0 <= i < |after| ensures after[i] != x {
      assert list[n + 1 + i] == after[i];
    }
    forall i, j | 0 <= i < j < |moved| ensures moved[i] != moved[j] {
      var i', j' := if i < n then i else i + 1, if j < n then j else if j < |moved| - 1 then j + 1 else n;
      assert moved[i] == list[i'] && moved[j] == list[j'] && i' != j';
    }
  }

  lemma MovedList(before: seq<string>, x: string, after: seq<string>)
    requires NoDuplicates(before + [x] + after) && |after| > 0
    ensures var list := before + [x] + after;
            && Dedup(list) == list && list + Without([x], ToSet(list)) == list
            && Without(list, {x}) + [x] == before + after + [x] != list
  {
    var list := before + [x] + after;
    DedupOfDistinct(list);
    SplitDistinct(before, x, after);
    assert list[|before|] == x && x in list;
    WithoutAll([x], ToSet(list));
    Nil(list);
    WithoutConcat(before + [x], after, {x});
    WithoutConcat(before, [x], {x});
    WithoutDisjoint(before, {x});
    WithoutDisjoint(after, {x});
    WithoutAll([x], {x});
    Nil(before);
    assert (before + after + [x])[|before|] == after[0] && after[0] in after;
  }

  /** One apply need not be enough: a manual entry `x` that is also materialised keeps its place at the first apply, while
      nothing is tracked, and the second moves it behind the entries after it. */
  lemma SecondApplyMoves(st: State, d: string, g: string, a: Action, before: seq<string>, x: string, after: seq<string>)
    requires st.tracking == map[] && Find(st.groups, Lower(g)).Some?
    requires ListOf(st, Pair(Lower(g), a), Exact) == before + [x] + after
    requires NoDuplicates(before + [x] + after) && |after| > 0
    ensures var lib, p := OneEntry(d, g, a, Exact, x), Pair(Lower(g), a);
            var st1 := Apply(st, lib, [], NO_FAULTS).0;
            var st2 := Apply(st1, lib, [p], NO_FAULTS).0;
            && AppliedTwice(st, lib, [], [p], NO_FAULTS, NO_FAULTS)
            && ListOf(st1, p, Exact) == before + [x] + after
            && ListOf(st2, p, Exact) == before + after + [x]
            && st2.groups != st1.groups
  {
    OneEntryWantsOne(d, g, a, Exact, x);
    OneEntryOwnsOne(d, g, a, Exact, x);
    OneMoves(st, OneEntry(d, g, a, Exact, x), Pair(Lower(g), a), before, x, after);
  }

  lemma OneMoves(st: State, lib: Library, p: Pair, before: seq<string>, x: string, after: seq<string>)
    requires st.tracking == map[] && Find(st.groups, p.key).Some? && WantsOne(lib, p, Exact, x) && OwnsOne(lib, p)
    requires ListOf(st, p, Exact) == before + [x] + after
    requires NoDuplicates(before + [x] + after) && |after| > 0
    ensures var st1 := Apply(st, lib, [], NO_FAULTS).0;
            var st2 := Apply(st1, lib, [p], NO_FAULTS).0;
            && AppliedTwice(st, lib, [], [p], NO_FAULTS, NO_FAULTS)
            && ListOf(st1, p, Exact) == before + [x] + after
            && ListOf(st2, p, Exact) == before + after + [x]
            && st2.groups != st1.groups
  {
    OneAppliedTwice(st, lib, p, Exact, x);
    ListsOfTwoApplies(st, lib, [], [p], NO_FAULTS, NO_FAULTS, p, Exact);
    KeptWithoutTracking(st, p, Exact);
    AllOfOne(lib, p, Exact, x);
    MovedList(before, x, after);
  }

  /** Worse, tracking rows do not tell the two lists of a pair apart: a manual exact entry that is equal to a materialised
      regex survives the first apply and is deleted by the second. */
  lemma SecondApplyDeletes(st: State, d: string, g: string, a: Action, x: string)
    requires st.tracking == map[] && Find(st.groups, Lower(g)).Some?
    requires x in ListOf(st, Pair(Lower(g), a), Exact)
    ensures var lib, p := OneEntry(d, g, a, Regex, x), Pair(Lower(g), a);
            var st1 := Apply(st, lib, [], NO_FAULTS).0;
            var st2 := Apply(st1, lib, [p], NO_FAULTS).0;
            && AppliedTwice(st, lib, [], [p], NO_FAULTS, NO_FAULTS)
            && x in ListOf(st1, p, Exact) && x !in ListOf(st2, p, Exact)
  {
    OneEntryWantsOne(d, g, a, Regex, x);
    OneEntryOwnsOne(d, g, a, Regex, x);
    OneDeletes(st, OneEntry(d, g, a, Regex, x), Pair(Lower(g), a), x);
  }

  lemma OneDeletes(st: State, lib: Library, p: Pair, x: string)
    requires st.tracking == map[] && Find(st.groups, p.key).Some? && WantsOne(lib, p, Regex, x) && OwnsOne(lib, p)
    requires x in ListOf(st, p, Exact)
    ensures var st1 := Apply(st, lib, [], NO_FAULTS).0;
            var st2 := Apply(st1, lib, [p], NO_FAULTS).0;
            && AppliedTwice(st, lib, [], [p], NO_FAULTS, NO_FAULTS)
            && x in ListOf(st1, p, Exact) && x !in ListOf(st2, p, Exact)
  {
    OneAppliedTwice(st, lib, p, Regex, x);
    ListsOfTwoApplies(st, lib, [], [p], NO_FAULTS, NO_FAULTS, p, Exact);
    KeptWithoutTracking(st, p, Exact);
    AllOfOne(lib, p, Regex, x);
  }
}
