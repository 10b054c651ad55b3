/** With an unchanged library, the second successful apply reaches a fixed point; the first need not. */
module DomainGroupConvergence {
  import opened Strings
  import opened Options
  import opened Sequences
  import opened DomainGroupModel
  import opened DomainGroupEffects
  import opened DomainGroupCommit
  import opened DomainGroupPreview
  import opened DomainGroupRuns

  lemma MergeTwice(list: seq<string>, tracked: set<string>, wanted: seq<string>)
    requires ToSet(wanted) <= tracked
    ensures var once := Dedup(Without(list, tracked) + wanted);
            Dedup(Without(once, tracked) + wanted) == once
  {
    var kept := Without(list, tracked);
    forall v | v in wanted ensures v in tracked {
      assert v in ToSet(wanted);
    }
    WithoutDedup(kept + wanted, tracked);
    WithoutConcat(kept, wanted, tracked);
    WithoutAll(wanted, tracked);
    WithoutTwice(list, tracked, tracked);
    Nil(kept);
    DedupConcat(kept, wanted);
  }

  lemma StageTwice(before: Option<Group>, after: Option<Group>, bucket: Option<Group>, owned: bool,
                   tracked: set<string>,
                   a: Action, m: MatchType)
    requires ToSet(OldList(bucket, a, m)) <= tracked && (!owned ==> tracked == {}) && (bucket.None? ==> tracked == {})
    requires (bucket.Some? ==> before.Some?) && (before.Some? ==> after.Some?)
    requires OldList(after, a, m) == NextList(before, bucket, owned, tracked, a, m)
    ensures NextList(after, bucket, owned, tracked, a, m) == OldList(after, a, m)
  {
    var list := OldList(before, a, m);
    MergeTwice(list, tracked, OldList(bucket, a, m));
    WithoutNothing(list);
    WithoutNothing(Dedup(list));
    WithoutNothing(OldList(after, a, m));
    DedupTwice(list);
  }

  /** From the second apply on, no list changes. */
  lemma ListSettles(st1: State, lib: Library, pairs: seq<Pair>, pairs': seq<Pair>, faults: Faults, p: Pair,
                    m: MatchType)
    requires Settled(st1, lib)
    requires ListsPairs(pairs, st1.tracking) && Apply(st1, lib, pairs, faults).1 == Done
    requires var st2 := Apply(st1, lib, pairs, faults).0;
             ListsPairs(pairs', st2.tracking) && Apply(st2, lib, pairs', faults).1 == Done
    ensures var st2 := Apply(st1, lib, pairs, faults).0;
            ListOf(Apply(st2, lib, pairs', faults).0, p, m) == ListOf(st2, p, m)
  {
    var st2 := Apply(st1, lib, pairs, faults).0;
    var buckets, tracked := Buckets(Rows(lib)), ToSet(Wanted(lib, p, Exact)) + ToSet(Wanted(lib, p, Regex));
    ApplyDoneList(st1, lib, pairs, faults, p, m);
    ApplyDoneTracking(st1, lib, pairs, faults, p);
    ApplyDoneList(st2, lib, pairs', faults, p, m);
    FindInKeys(buckets, p.key);
    ValuesSet(lib, p);
    assert TrackedBy(st1, p) == tracked;
    StageTwice(Find(st1.groups, p.key), Find(st2.groups, p.key), Bucket(buckets, p.key), p in Owned(lib), tracked,
               p.action, m);
  }

  /** What an apply of `lib` that went through leaves behind. */
  ghost predicate Settled(st: State, lib: Library) {
    && (forall p :: TrackedBy(st, p) == ToSet(Wanted(lib, p, Exact)) + ToSet(Wanted(lib, p, Regex)))
    && (forall key :: key in Keys(Buckets(Rows(lib))) ==> Find(st.groups, key).Some?)
  }

  lemma ApplySettles(st: State, lib: Library, pairs: seq<Pair>, faults: Faults)
    requires ListsPairs(pairs, st.tracking) && Apply(st, lib, pairs, faults).1 == Done
    ensures Settled(Apply(st, lib, pairs, faults).0, lib)
  {
    forall p: Pair ensures TrackedBy(Apply(st, lib, pairs, faults).0, p) ==
                           ToSet(Wanted(lib, p, Exact)) + ToSet(Wanted(lib, p, Regex))
    {
      ApplyDoneTracking(st, lib, pairs, faults, p);
    }
    forall key | key in Keys(Buckets(Rows(lib))) ensures Find(Apply(st, lib, pairs, faults).0.groups, key).Some? {
      ApplyDoneList(st, lib, pairs, faults, Pair(key, Allow), Exact);
    }
  }

  // ---- from lists to groups --------------------------------------------------------------------------

  lemma {:induction false} SameNamesSameIndex(a: seq<Group>, b: seq<Group>, key: string)
    requires |a| == |b| && forall i :: 0 <= i < |a| ==> a[i].name == b[i].name
    ensures IndexOf(a, key) == IndexOf(b, key)
  {
    if a != [] {
      var n := |a| - 1;
      SameNamesSameIndex(a[..n], b[..n], key);
    }
  }

  lemma GroupFromLists(g: Group, h: Group)
    requires g.name == h.name && g.settings == h.settings
    requires g.List(Allow, Exact) == h.List(Allow, Exact) && g.List(Allow, Regex) == h.List(Allow, Regex)
    requires g.List(Block, Exact) == h.List(Block, Exact) && g.List(Block, Regex) == h.List(Block, Regex)
    ensures g == h
  {
  }

  ghost predicate SameList(a: seq<Group>, b: seq<Group>, key: string, act: Action, m: MatchType) {
    OldList(Find(b, key), act, m) == OldList(Find(a, key), act, m)
  }

  lemma SameListsSameGroups(a: seq<Group>, b: seq<Group>)
    requires Extends(a, b) && |a| == |b|
    requires forall key, act, m :: SameList(a, b, key, act, m)
    ensures a == b
  {
    forall i | 0 <= i < |a| ensures a[i] == b[i] {
      var key := Lower(a[i].name);
      if IndexOf(a, key) == i {
        SameNamesSameIndex(a, b, key);
        assert SameList(a, b, key, Allow, Exact) && SameList(a, b, key, Allow, Regex);
        assert SameList(a, b, key, Block, Exact) && SameList(a, b, key, Block, Regex);
        GroupFromLists(a[i], b[i]);
      }
    }
  }

  lemma MergeKeepsLength(a: seq<Group>, r: seq<Group>, b: Group, owned: set<Pair>, t: Tracking)
    requires Extends(a, r) && |r| == |a| && IndexOf(a, Lower(b.name)) >= 0
    ensures |MergeInto(r, b, owned, t)| == |a|
  {
    SameNamesSameIndex(a, r, Lower(b.name));
  }

  lemma {:induction false} NoNewGroups(groups: seq<Group>, buckets: seq<Group>, owned: set<Pair>, t: Tracking)
    requires forall i :: 0 <= i < |buckets| ==> IndexOf(groups, Lower(buckets[i].name)) >= 0
    ensures |FirstPass(groups, buckets, owned, t)| == |groups|
  {
    if buckets != [] {
      var n := |buckets| - 1;
      var r, b := FirstPass(groups, buckets[..n], owned, t), buckets[n];
      assert |r| == |groups| by {
        NoNewGroups(groups, buckets[..n], owned, t);
      }
      assert |MergeInto(r, b, owned, t)| == |groups| by {
        FirstPassExtends(groups, buckets[..n], owned, t);
        MergeKeepsLength(groups, r, b, owned, t);
      }
    }
  }

  lemma {:induction false} DropAllLength(groups: seq<Group>, pairs: seq<Pair>, t: Tracking)
    ensures |DropAll(groups, pairs, t)| == |groups|
  {
    if pairs != [] {
      DropAllLength(groups, pairs[..|pairs| - 1], t);
    }
  }

  lemma KeepsLength(groups: seq<Group>, buckets: seq<Group>, owned: seq<Pair>, t: Tracking, pairs: seq<Pair>)
    requires forall i :: 0 <= i < |buckets| ==> IndexOf(groups, Lower(buckets[i].name)) >= 0
    ensures |ApplyToGroups(groups, buckets, owned, t, pairs)| == |groups|
  {
    NoNewGroups(groups, buckets, ToSet(owned), t);
    var first := FirstPass(groups, buckets, ToSet(owned), t);
    DropAllLength(first, Unprocessed(owned, Keys(buckets)), t);
    DropAllLength(DropAll(first, Unprocessed(owned, Keys(buckets)), t), Unbound(pairs, ToSet(owned)), t);
  }

  lemma SameLength(st: State, lib: Library, pairs: seq<Pair>)
    requires Settled(st, lib)
    ensures |ApplyToGroups(st.groups, Buckets(Rows(lib)), Owned(lib), st.tracking, pairs)| == |st.groups|
  {
    var buckets, owned := Buckets(Rows(lib)), Owned(lib);
    forall i | 0 <= i < |buckets| ensures IndexOf(st.groups, Lower(buckets[i].name)) >= 0 {
      assert buckets[i] in buckets && Lower(buckets[i].name) in Keys(buckets);
      assert Find(st.groups, Lower(buckets[i].name)).Some?;
    }
    KeepsLength(st.groups, buckets, owned, st.tracking, pairs);
  }

  /** Two successful applies of the same library reach a fixed point: a third changes no group, so nothing is written, and
      no tracked row. */
  lemma TwoAppliesConverge(st: State, lib: Library, pairs1: seq<Pair>, pairs2: seq<Pair>, pairs3: seq<Pair>,
                           faults: Faults)
    requires ListsPairs(pairs1, st.tracking) && Apply(st, lib, pairs1, faults).1 == Done
    requires var st1 := Apply(st, lib, pairs1, faults).0;
             ListsPairs(pairs2, st1.tracking) && Apply(st1, lib, pairs2, faults).1 == Done
    requires var st2 := Apply(Apply(st, lib, pairs1, faults).0, lib, pairs2, faults).0;
             ListsPairs(pairs3, st2.tracking) && Apply(st2, lib, pairs3, faults).1 == Done
    ensures var st2 := Apply(Apply(st, lib, pairs1, faults).0, lib, pairs2, faults).0;
            var st3 := Apply(st2, lib, pairs3, faults).0;
            st3.groups == st2.groups && forall p :: TrackedBy(st3, p) == TrackedBy(st2, p)
  {
    var st1 := Apply(st, lib, pairs1, faults).0;
    var st2 := Apply(st1, lib, pairs2, faults).0;
    var st3 := Apply(st2, lib, pairs3, faults).0;
    ApplySettles(st, lib, pairs1, faults);
    ApplySettles(st1, lib, pairs2, faults);
    ApplySettles(st2, lib, pairs3, faults);
    forall key, a, m ensures SameList(st2.groups, st3.groups, key, a, m) {
      ListSettles(st1, lib, pairs2, pairs3, faults, Pair(key, a), m);
    }
    PassesExtend(st2.groups, Buckets(Rows(lib)), Owned(lib), st2.tracking, pairs3);
    SameLength(st2, lib, pairs3);
    SameListsSameGroups(st2.groups, st3.groups);
  }
}
