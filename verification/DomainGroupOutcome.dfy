/** How an apply ends: refused, failed or done, and what it leaves in each case. */
module DomainGroupOutcome {
  import opened Strings
  import opened Options
  import opened Sequences
  import opened DomainGroupModel
  import opened DomainGroupEffects
  import opened DomainGroupCommit
  import opened DomainGroupPreview
  import opened DomainGroupRuns
  import opened DomainGroupConvergence

  /** Two bindings give one value to a group with opposite actions. */
  ghost predicate HasConflict(lib: Library) {
    exists k :: HasRow(Rows(lib), k, Allow) && HasRow(Rows(lib), k, Block)
  }

  lemma ConflictsIff(lib: Library)
    ensures Conflicts(Rows(lib), KeysOf(Rows(lib))) != [] <==> HasConflict(lib)
  {
    var rows := Rows(lib);
    var conflicts := Conflicts(rows, KeysOf(rows));
    ConflictsAre(rows, KeysOf(rows));
    EmptyIffNoMember(conflicts);
    if k :| HasRow(rows, k, Allow) && HasRow(rows, k, Block) {
      MergeIff(rows, k, Allow);
      assert k in conflicts;
    }
  }

  // ---- what an apply would write -------------------------------------------------------------------------

  /** What a list should be: the old one without what is tracked, and what is materialised. */
  ghost function NextOf(st: State, lib: Library, p: Pair, m: MatchType): seq<string> {
    ListAfter(st.groups, Buckets(Rows(lib)), Owned(lib), st.tracking, p.key, p.action, m)
  }

  ghost predicate ListIsRight(st: State, lib: Library, p: Pair, m: MatchType) {
    NextOf(st, lib, p, m) == ListOf(st, p, m)
  }

  /** Some list of some group is not as it should be. */
  ghost predicate NeedsWrite(st: State, lib: Library) {
    exists p, m :: !ListIsRight(st, lib, p, m)
  }

  /** Every bucket holds something. */
  ghost predicate Filled(b: Group) {
    exists a, m :: b.List(a, m) != []
  }

  lemma AddValueFills(g: Group, a: Action, m: MatchType, value: string)
    ensures Filled(AddValue(g, a, m, value))
  {
    var list := AddTo(g.List(a, m), value);
    assert value in list;
    assert AddValue(g, a, m, value).List(a, m) == list;
  }

  lemma {:induction false} BucketsFilled(rows: seq<Row>, keys: seq<Key>)
    ensures forall b :: b in BucketsFor(rows, keys) ==> Filled(b)
  {
    if |keys| > 0 {
      var n := |keys| - 1;
      var before, k, actions := BucketsFor(rows, keys[..n]), keys[n], ActionsOf(rows, keys[n]);
      var a := if Allow in actions then Allow else Block;
      BucketsFilled(rows, keys[..n]);
      var i := IndexOf(before, k.name);
      AddValueFills(if i < 0 then EmptyGroup(NameOf(rows, k)) else before[i], a, k.matchType, k.value);
    }
  }

  /** Without a list to change there is no group to create. */
  lemma RightListsHaveGroups(st: State, lib: Library, b: Group)
    requires b in Buckets(Rows(lib)) && !NeedsWrite(st, lib)
    ensures IndexOf(st.groups, Lower(b.name)) >= 0
  {
    var rows, key := Rows(lib), Lower(b.name);
    PreviewFits(lib);
    BucketsFilled(rows, KeysOf(rows));
    FindInKeys(Buckets(rows), key);
    FindMember(Buckets(rows), b);
    var a, m :| b.List(a, m) != [];
    assert ListIsRight(st, lib, Pair(key, a), m);
  }

  lemma PassesChangeIff(st: State, lib: Library, pairs: seq<Pair>)
    requires ListsPairs(pairs, st.tracking)
    ensures ApplyToGroups(st.groups, Buckets(Rows(lib)), Owned(lib), st.tracking, pairs) != st.groups <==> NeedsWrite(st, lib)
  {
    var buckets, owned := Buckets(Rows(lib)), Owned(lib);
    var next := ApplyToGroups(st.groups, buckets, owned, st.tracking, pairs);
    PreviewFits(lib);
    forall p: Pair, m: MatchType ensures OldList(Find(next, p.key), p.action, m) == NextOf(st, lib, p, m) {
      PassesComputeNextList(st.groups, buckets, owned, st.tracking, pairs, p.key, p.action, m);
    }
    if NeedsWrite(st, lib) {
      var p, m :| !ListIsRight(st, lib, p, m);
      assert OldList(Find(next, p.key), p.action, m) == NextOf(st, lib, p, m);
    } else {
      forall key, a, m ensures SameList(st.groups, next, key, a, m) {
        assert ListIsRight(st, lib, Pair(key, a), m);
        assert OldList(Find(next, Pair(key, a).key), Pair(key, a).action, m) == NextOf(st, lib, Pair(key, a), m);
      }
      forall i | 0 <= i < |buckets| ensures IndexOf(st.groups, Lower(buckets[i].name)) >= 0 {
        RightListsHaveGroups(st, lib, buckets[i]);
      }
      PassesExtend(st.groups, buckets, owned, st.tracking, pairs);
      KeepsLength(st.groups, buckets, owned, st.tracking, pairs);
      SameListsSameGroups(st.groups, next);
    }
  }

  // ---- what the commit meets -------------------------------------------------------------------------------

  /** A pair gets one value both as an exact entry and as a regex. */
  ghost predicate TwiceFor(rows: seq<Row>, p: Pair, v: string) {
    HasRow(rows, Key(p.key, Exact, v), p.action) && HasRow(rows, Key(p.key, Regex, v), p.action)
  }

  ghost predicate RepeatsValue(lib: Library) {
    exists p, v :: TwiceFor(Rows(lib), p, v)
  }

  lemma WantedWithoutConflict(lib: Library, p: Pair, m: MatchType, v: string)
    requires !HasConflict(lib)
    ensures v in Wanted(lib, p, m) <==> HasRow(Rows(lib), Key(p.key, m, v), p.action)
    ensures HasRow(Rows(lib), Key(p.key, m, v), p.action) ==> p in Owned(lib)
    ensures NoDuplicates(Wanted(lib, p, m))
  {
    MaterializedIff(Rows(lib), p.key, p.action, m, v);
    if HasRow(Rows(lib), Key(p.key, m, v), p.action) {
      var r :| r in Rows(lib) && KeyOf(r) == Key(p.key, m, v) && r.action == p.action;
      RowIsOwned(lib, r);
    }
  }

  lemma DistinctConcatIff(a: seq<string>, b: seq<string>)
    requires NoDuplicates(a) && NoDuplicates(b)
    ensures NoDuplicates(a + b) <==> forall v :: v in a ==> v !in b
  {
    var s := a + b;
    if v :| v in a && v in b {
      var i :| 0 <= i < |a| && a[i] == v;
      var j :| 0 <= j < |b| && b[j] == v;
      assert s[i] == s[|a| + j];
    } else {
      forall i, j | 0 <= i < j < |s| ensures s[i] != s[j] {
        assert i < |a| ==> s[i] == a[i] && s[i] in a;
        assert j >= |a| ==> s[j] == b[j - |a|] && s[j] in b;
      }
    }
  }

  lemma PairRepeatsIff(lib: Library, p: Pair)
    requires !HasConflict(lib)
    ensures NoDuplicates(Values(Buckets(Rows(lib)), p)) <==> forall v :: !TwiceFor(Rows(lib), p, v)
  {
    var exact, regex := Wanted(lib, p, Exact), Wanted(lib, p, Regex);
    WantedWithoutConflict(lib, p, Exact, "");
    WantedWithoutConflict(lib, p, Regex, "");
    DistinctConcatIff(exact, regex);
    forall v ensures TwiceFor(Rows(lib), p, v) <==> v in exact && v in regex {
      WantedWithoutConflict(lib, p, Exact, v);
      WantedWithoutConflict(lib, p, Regex, v);
    }
  }

  lemma CommitGoesThroughIff(st: State, lib: Library, pairs: seq<Pair>)
    requires ListsPairs(pairs, st.tracking) && !HasConflict(lib)
    ensures CommitAll(st.tracking, Writes(Buckets(Rows(lib)), Owned(lib)), Unbound(pairs, ToSet(Owned(lib)))).Committed?
            <==> !RepeatsValue(lib)
  {
    PreviewFits(lib);
    CommitRecordsMaterialized(Buckets(Rows(lib)), Owned(lib), st.tracking, pairs);
    forall p: Pair ensures NoDuplicates(Values(Buckets(Rows(lib)), p)) <==> forall v :: !TwiceFor(Rows(lib), p, v) {
      PairRepeatsIff(lib, p);
    }
    if p, v :| TwiceFor(Rows(lib), p, v) {
      WantedWithoutConflict(lib, p, Exact, v);
    }
  }

  // ---- how an apply ends -------------------------------------------------------------------------------------

  /** An apply is refused exactly if the library has a conflict; it is done exactly if there is none, nothing that it
      needs fails, and no pair gets a value twice. */
  lemma OutcomeIff(st: State, lib: Library, pairs: seq<Pair>, faults: Faults)
    requires ListsPairs(pairs, st.tracking)
    ensures Apply(st, lib, pairs, faults).1 == Refused <==> HasConflict(lib)
    ensures Apply(st, lib, pairs, faults).1 == Done <==>
            !HasConflict(lib) && !faults.load && !(faults.write && NeedsWrite(st, lib)) && !RepeatsValue(lib)
  {
    ConflictsIff(lib);
    PassesChangeIff(st, lib, pairs);
    if !HasConflict(lib) {
      CommitGoesThroughIff(st, lib, pairs);
    }
  }

  /** A refused apply, a failed load and a failed write that was needed leave the configuration and the rows alone. */
  lemma FailureChangesNothing(st: State, lib: Library, pairs: seq<Pair>, faults: Faults)
    requires ListsPairs(pairs, st.tracking)
    requires HasConflict(lib) || faults.load || (faults.write && NeedsWrite(st, lib))
    ensures Apply(st, lib, pairs, faults).0 == st
  {
    ConflictsIff(lib);
    PassesChangeIff(st, lib, pairs);
  }

  /** In every other case the configuration is written, also when the commit of the rows then breaks. */
  lemma OtherwiseListsAreRight(st: State, lib: Library, pairs: seq<Pair>, faults: Faults, p: Pair, m: MatchType)
    requires ListsPairs(pairs, st.tracking)
    requires !HasConflict(lib) && !faults.load && !(faults.write && NeedsWrite(st, lib))
    ensures ListOf(Apply(st, lib, pairs, faults).0, p, m) == NextOf(st, lib, p, m)
  {
    ConflictsIff(lib);
    PassesChangeIff(st, lib, pairs);
    PreviewFits(lib);
    PassesComputeNextList(st.groups, Buckets(Rows(lib)), Owned(lib), st.tracking, pairs, p.key, p.action, m);
  }

  /** The groups an apply creates come last, bear a bound group name in the spelling of a binding, and have nothing but
      lists; the others keep their place, their name and everything but their lists. */
  lemma OnlyBoundGroupsAreCreated(st: State, lib: Library, pairs: seq<Pair>, faults: Faults, i: nat)
    requires i < |Apply(st, lib, pairs, faults).0.groups|
    ensures var g := Apply(st, lib, pairs, faults).0.groups[i];
            if i < |st.groups| then g.name == st.groups[i].name && g.settings == st.groups[i].settings
            else g.settings == map[] && IsSpelled(Rows(lib), g.name)
  {
    var rows := Rows(lib);
    var buckets := Buckets(rows);
    var r := ApplyToGroups(st.groups, buckets, Owned(lib), st.tracking, pairs);
    PassesExtend(st.groups, buckets, Owned(lib), st.tracking, pairs);
    PassesCreate(st.groups, buckets, Owned(lib), st.tracking, pairs);
    BucketNames(rows, KeysOf(rows));
    if |st.groups| <= i < |r| {
      assert IsNew(r[i], buckets);
    }
  }

  /** If no value is materialised twice, the preview's test finds a pair pending exactly if what it tracks is not what is
      materialised for it. */
  lemma PendingIff(lib: Library, tracking: Tracking, p: Pair)
    requires forall v :: v in Wanted(lib, p, Exact) ==> v !in Wanted(lib, p, Regex)
    ensures IsPending(lib, tracking, p) <==>
            Tracked(tracking, p) != ToSet(Wanted(lib, p, Exact)) + ToSet(Wanted(lib, p, Regex))
  {
    var exact, regex, tracked := Wanted(lib, p, Exact), Wanted(lib, p, Regex), Tracked(tracking, p);
    MaterializedIff(Rows(lib), p.key, p.action, Exact, "");
    MaterializedIff(Rows(lib), p.key, p.action, Regex, "");
    DistinctConcatIff(exact, regex);
    SizeOfDistinct(exact + regex);
    assert ToSet(exact + regex) == ToSet(exact) + ToSet(regex);
    if |tracked| == |exact + regex| && forall v :: v in exact + regex ==> v in tracked {
      assert ToSet(exact + regex) <= tracked;
      SubsetOfSameSize(ToSet(exact + regex), tracked);
    }
  }
}
