/** Stale deletes: which of a stale row's records are gone after an apply, and that nothing is left to delete. */
module DhcpSyncDeletes {
  import opened Options
  import opened ManagedComment
  import opened Sequences
  import opened DhcpSyncModel
  import opened DhcpSyncOwnership
  import opened DhcpSyncConvergence

  // ---- which candidates are planned ----------------------------------------------------------------------------

  /** An earlier matching candidate has the same key and ip: `seenDeleteKeys` already holds its delete key. */
  ghost predicate Suppressed(cs: seq<Item>, zones: Zones, n: nat)
    requires n < |cs|
  {
    exists m: nat :: m < n && Matches(zones, cs[m]) && SameDelete(cs[m], cs[n])
  }

  lemma NextCandidate(cs: seq<Item>, c: Item, zones: Zones)
    ensures var d := Deletes(cs, zones);
            Deletes(cs + [c], zones) == if Matches(zones, c) && !HasDelete(d, c) then d + [DeleteOf(zones, c)] else d
  {
    InitOfAppend(cs, c);
  }

  lemma HasDeleteSnoc(deletes: seq<Planned>, p: Planned, c: Item)
    ensures HasDelete(deletes + [p], c) <==> HasDelete(deletes, c) || SameDelete(p.item, c)
  {
    var all := deletes + [p];
    assert forall q :: q in all <==> q in deletes || q == p;
  }

  /** Some candidate matches and shares its delete with `c`. */
  ghost predicate HasMatch(cs: seq<Item>, zones: Zones, c: Item) {
    exists m: nat :: m < |cs| && Matches(zones, cs[m]) && SameDelete(cs[m], c)
  }

  lemma HasMatchSnoc(cs: seq<Item>, x: Item, zones: Zones, c: Item)
    ensures HasMatch(cs + [x], zones, c) <==> HasMatch(cs, zones, c) || (Matches(zones, x) && SameDelete(x, c))
  {
    var all := cs + [x];
    if m: nat :| m < |cs| && Matches(zones, cs[m]) && SameDelete(cs[m], c) {
      assert all[m] == cs[m];
    }
    if Matches(zones, x) && SameDelete(x, c) {
      assert all[|cs|] == x;
    }
    if m: nat :| m < |all| && Matches(zones, all[m]) && SameDelete(all[m], c) {
      assert m < |cs| ==> all[m] == cs[m];
    }
  }

  /** The delete keys in use after some candidates are those of the matching ones. */
  lemma {:induction false} PlannedIffMatched(cs: seq<Item>, zones: Zones, c: Item)
    ensures HasDelete(Deletes(cs, zones), c) <==> HasMatch(cs, zones, c)
  {
    if |cs| > 0 {
      var init, x := cs[..|cs| - 1], cs[|cs| - 1];
      PlannedIffMatched(init, zones, c);
      PlannedIffMatched(init, zones, x);
      InitLast(cs);
      NextCandidate(init, x, zones);
      HasMatchSnoc(init, x, zones, c);
      if Matches(zones, x) {
        HasDeleteSnoc(Deletes(init, zones), DeleteOf(zones, x), c);
      }
    }
  }

  predicate IsDeleteOf(p: Planned, key: Key, ip: string) {
    p.status == DeleteRecord && p.item.key == key && p.item.lease.ip == ip
  }

  lemma MatchingIsPlanned(cs: seq<Item>, zones: Zones, c: Item)
    requires c in cs && Matches(zones, c)
    ensures exists p :: p in Deletes(cs, zones) && IsDeleteOf(p, c.key, c.lease.ip)
  {
    PlannedIffMatched(cs, zones, c);
    var n: nat :| n < |cs| && cs[n] == c;
    assert HasDelete(Deletes(cs, zones), c);
    var p :| p in Deletes(cs, zones) && SameDelete(p.item, c);
    DeleteIsOwned(cs, zones, p);
    assert IsDeleteOf(p, c.key, c.lease.ip);
  }

  /** Deleting goes candidate by candidate: a later delete never repeats an earlier one. */
  lemma {:induction false} DeletesGrow(cs: seq<Item>, zones: Zones, n: nat)
    requires n <= |cs|
    ensures forall p :: p in Deletes(cs[..n], zones) ==> p in Deletes(cs, zones)
    ensures forall p :: p in Deletes(cs, zones) && HasDelete(Deletes(cs[..n], zones), p.item) ==> p in Deletes(cs[..n], zones)
  {
    if n == |cs| {
      assert cs[..n] == cs;
    } else {
      var k := |cs| - 1;
      DeletesGrow(cs[..k], zones, n);
      assert cs[..k][..n] == cs[..n];
      forall p | p in Deletes(cs, zones) && HasDelete(Deletes(cs[..n], zones), p.item) ensures p in Deletes(cs[..n], zones) {
        var q :| q in Deletes(cs[..n], zones) && SameDelete(q.item, p.item);
        assert q in Deletes(cs[..k], zones);
      }
    }
  }

  lemma SuppressedIff(cs: seq<Item>, zones: Zones, n: nat)
    requires n < |cs|
    ensures Suppressed(cs, zones, n) <==> HasDelete(Deletes(cs[..n], zones), cs[n])
  {
    PlannedIffMatched(cs[..n], zones, cs[n]);
    forall m: nat | m < n ensures cs[..n][m] == cs[m] {
    }
  }

  lemma NotSuppressedIsPlanned(cs: seq<Item>, zones: Zones, n: nat)
    requires n < |cs| && Matches(zones, cs[n]) && !Suppressed(cs, zones, n)
    ensures DeleteOf(zones, cs[n]) in Deletes(cs, zones)
  {
    SuppressedIff(cs, zones, n);
    NextCandidate(cs[..n], cs[n], zones);
    InitLast(cs[..n + 1]);
    assert cs[..n + 1] == cs[..n] + [cs[n]];
    DeletesGrow(cs, zones, n + 1);
  }

  // ---- what a plan of deletes leaves -----------------------------------------------------------------------------

  /** At a key that nobody desires, a plan holds nothing but deletes. */
  ghost predicate OnlyDeletes(plan: seq<Planned>, key: Key, cs: seq<Item>, zones: Zones) {
    forall p :: p in plan && p.item.key == key ==> p in Deletes(cs, zones)
  }

  ghost predicate DeletesAt(plan: seq<Planned>, key: Key) {
    forall p :: p in plan && p.item.key == key ==> p.status == DeleteRecord
  }

  lemma {:induction false} OnlyShrinks(rr: seq<Rec>, plan: seq<Planned>, key: Key, r: Rec)
    requires DeletesAt(plan, key) && r in WriteAt(rr, plan, key, {})
    ensures r in rr && forall p :: p in plan && p.item.key == key ==> r.value != p.current
  {
    if |plan| > 0 {
      var n := |plan| - 1;
      assert plan[n] in plan;
      OnlyShrinks(rr, plan[..n], key, r);
      forall p | p in plan && p.item.key == key ensures r.value != p.current {
        assert p in plan[..n] || p == plan[n];
      }
    }
  }

  lemma SameLease(r: Rec, a: Lease, b: Lease)
    requires ManagedFor(r, a) && ManagedFor(r, b)
    ensures a == b
  {
  }

  /** A delete that removes a record of `lease` is a delete for that lease. */
  lemma DeleteOfLease(cs: seq<Item>, zones: Zones, p: Planned, r: Rec, lease: Lease)
    requires p in Deletes(cs, zones) && Distinct(At(zones, p.item.key))
    requires r in At(zones, p.item.key) && ManagedFor(r, lease) && p.current == r.value
    ensures p.item.lease == lease
  {
    var q := DeleteReplaces(cs, zones, p);
    SameValueSameRecord(At(zones, p.item.key), q, r);
    SameLease(r, p.item.lease, lease);
  }

  /** No two candidates for the same record: rows have a primary key, address and PTR records different types. */
  ghost predicate OneCandidateEach(cs: seq<Item>) {
    forall a, b :: 0 <= a < b < |cs| && cs[a].lease == cs[b].lease ==> cs[a].key != cs[b].key
  }

  lemma SuppressedSurvives(cs: seq<Item>, zones: Zones, plan: seq<Planned>, n: nat, r: Rec)
    requires n < |cs| && OnlyDeletes(plan, cs[n].key, cs, zones) && OneCandidateEach(cs) && Distinct(At(zones, cs[n].key))
    requires r in At(zones, cs[n].key) && ManagedFor(r, cs[n].lease) && Suppressed(cs, zones, n)
    ensures r in WriteAt(At(zones, cs[n].key), plan, cs[n].key, {})
  {
    forall p | p in plan && p.item.key == cs[n].key && Replaces(p) ensures p.current != r.value {
      if p.current == r.value {
        DeleteOfLease(cs, zones, p, r, cs[n].lease);
        SuppressedIff(cs, zones, n);
        DeletesGrow(cs, zones, n);
        DeleteIsOwned(cs[..n], zones, p);
      }
    }
    Survives(At(zones, cs[n].key), plan, cs[n].key, {}, r);
  }

  lemma PlannedIsGone(cs: seq<Item>, zones: Zones, plan: seq<Planned>, n: nat, r: Rec)
    requires n < |cs| && OnlyDeletes(plan, cs[n].key, cs, zones) && DeletesAt(plan, cs[n].key)
    requires forall p :: p in Deletes(cs, zones) ==> p in plan
    requires Matches(zones, cs[n]) && r == Owned(At(zones, cs[n].key), cs[n].lease)[0] && !Suppressed(cs, zones, n)
    ensures r !in WriteAt(At(zones, cs[n].key), plan, cs[n].key, {})
  {
    NotSuppressedIsPlanned(cs, zones, n);
    if r in WriteAt(At(zones, cs[n].key), plan, cs[n].key, {}) {
      OnlyShrinks(At(zones, cs[n].key), plan, cs[n].key, r);
    }
  }

  /** After all writes succeeded the record that a stale row left is still there exactly if its delete was suppressed
      because another lease's stale record with the same owner and ip came first. */
  lemma StaleRecordRemainsIff(cs: seq<Item>, zones: Zones, plan: seq<Planned>, n: nat)
    requires n < |cs| && OneCandidateEach(cs) && Distinct(At(zones, cs[n].key)) && Matches(zones, cs[n])
    requires OnlyDeletes(plan, cs[n].key, cs, zones) && forall p :: p in Deletes(cs, zones) ==> p in plan
    ensures Owned(At(zones, cs[n].key), cs[n].lease)[0] in At(Execute(zones, plan, {}), cs[n].key) <==> Suppressed(cs, zones, n)
  {
    var key := cs[n].key;
    ExecuteAt(zones, plan, {}, key);
    OnlyDeletesDelete(plan, key, cs, zones);
    var r := Owned(At(zones, key), cs[n].lease)[0];
    assert r in Owned(At(zones, key), cs[n].lease);
    if Suppressed(cs, zones, n) {
      SuppressedSurvives(cs, zones, plan, n, r);
    } else {
      PlannedIsGone(cs, zones, plan, n, r);
    }
  }

  // ---- nothing left to delete ------------------------------------------------------------------------------------

  lemma {:induction false} OwnedDistinct(rr: seq<Rec>, lease: Lease)
    requires Distinct(rr)
    ensures Distinct(Owned(rr, lease))
  {
    if |rr| > 0 {
      var n := |rr| - 1;
      OwnedDistinct(rr[..n], lease);
      var o := Owned(rr[..n], lease);
      forall i | 0 <= i < |o| ensures o[i].value != rr[n].value {
        assert o[i] in rr[..n];
      }
    }
  }

  /** The only delete that removes a lease's record is planned for a candidate of that lease. */
  lemma UnmatchedStays(cs: seq<Item>, zones: Zones, plan: seq<Planned>, c: Item, r: Rec)
    requires OnlyDeletes(plan, c.key, cs, zones) && Distinct(At(zones, c.key)) && !Matches(zones, c)
    requires r in Owned(At(zones, c.key), c.lease)
    ensures r in Owned(WriteAt(At(zones, c.key), plan, c.key, {}), c.lease)
  {
    forall p | p in plan && p.item.key == c.key && Replaces(p) ensures p.current != r.value {
      if p.current == r.value {
        DeleteOfLease(cs, zones, p, r, c.lease);
        DeleteIsOwned(cs, zones, p);
        SameOwner(zones, p.item, c);
      }
    }
    Survives(At(zones, c.key), plan, c.key, {}, r);
  }

  lemma SameOwner(zones: Zones, a: Item, b: Item)
    requires a.key == b.key && a.lease == b.lease
    ensures Matches(zones, a) <==> Matches(zones, b)
  {
  }

  lemma TwoAreNotOne(s: seq<Rec>, t: seq<Rec>)
    requires Distinct(s) && |s| >= 2 && forall r :: r in s ==> r in t
    ensures |t| != 1
  {
    assert s[0] in t && s[1] in t && s[0].value != s[1].value;
  }

  lemma UnmatchedStaysUnmatched(cs: seq<Item>, zones: Zones, plan: seq<Planned>, c: Item)
    requires OnlyDeletes(plan, c.key, cs, zones) && DeletesAt(plan, c.key) && Distinct(At(zones, c.key)) && !Matches(zones, c)
    ensures |Owned(WriteAt(At(zones, c.key), plan, c.key, {}), c.lease)| != 1
  {
    var rr := At(zones, c.key);
    var before, after := Owned(rr, c.lease), Owned(WriteAt(rr, plan, c.key, {}), c.lease);
    if |before| == 0 {
      if |after| > 0 {
        assert after[0] in after;
        OnlyShrinks(rr, plan, c.key, after[0]);
      }
    } else {
      forall r | r in before ensures r in after {
        UnmatchedStays(cs, zones, plan, c, r);
      }
      OwnedDistinct(rr, c.lease);
      TwoAreNotOne(before, after);
    }
  }

  lemma OwnedShrinks(rr: seq<Rec>, plan: seq<Planned>, key: Key, lease: Lease, r: Rec)
    requires DeletesAt(plan, key) && r in Owned(WriteAt(rr, plan, key, {}), lease)
    ensures r in WriteAt(rr, plan, key, {}) && r in Owned(rr, lease)
  {
    OnlyShrinks(rr, plan, key, r);
  }

  lemma TheOnlyOne(s: seq<Rec>, r: Rec)
    requires |s| == 1 && r in s
    ensures r == s[0]
  {
  }

  lemma MatchedIsEmptied(cs: seq<Item>, zones: Zones, plan: seq<Planned>, n: nat)
    requires n < |cs| && OnlyDeletes(plan, cs[n].key, cs, zones) && DeletesAt(plan, cs[n].key)
    requires forall p :: p in Deletes(cs, zones) ==> p in plan
    requires Matches(zones, cs[n]) && !Suppressed(cs, zones, n)
    ensures |Owned(WriteAt(At(zones, cs[n].key), plan, cs[n].key, {}), cs[n].lease)| == 0
  {
    var rr, key, lease := At(zones, cs[n].key), cs[n].key, cs[n].lease;
    PlannedIsGone(cs, zones, plan, n, Owned(rr, lease)[0]);
    forall r ensures r !in Owned(WriteAt(rr, plan, key, {}), lease) {
      if r in Owned(WriteAt(rr, plan, key, {}), lease) {
        OwnedShrinks(rr, plan, key, lease, r);
        TheOnlyOne(Owned(rr, lease), r);
      }
    }
    EmptyIffNoMember(Owned(WriteAt(rr, plan, key, {}), lease));
  }

  lemma OnlyDeletesDelete(plan: seq<Planned>, key: Key, cs: seq<Item>, zones: Zones)
    requires OnlyDeletes(plan, key, cs, zones)
    ensures DeletesAt(plan, key)
  {
    forall p | p in plan && p.item.key == key ensures p.status == DeleteRecord {
      DeleteIsOwned(cs, zones, p);
    }
  }

  /** A candidate of the preview before the apply does not match after it, unless it was suppressed. */
  lemma NoLongerMatches(cs: seq<Item>, zones: Zones, plan: seq<Planned>, n: nat)
    requires n < |cs| && Distinct(At(zones, cs[n].key)) && OnlyDeletes(plan, cs[n].key, cs, zones)
    requires forall p :: p in Deletes(cs, zones) ==> p in plan
    requires Matches(zones, cs[n]) ==> !Suppressed(cs, zones, n)
    ensures !Matches(Execute(zones, plan, {}), cs[n])
  {
    ExecuteAt(zones, plan, {}, cs[n].key);
    OnlyDeletesDelete(plan, cs[n].key, cs, zones);
    if Matches(zones, cs[n]) {
      MatchedIsEmptied(cs, zones, plan, n);
    } else {
      UnmatchedStaysUnmatched(cs, zones, plan, cs[n]);
    }
  }
}
