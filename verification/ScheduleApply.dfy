/** One apply, list by list: survivors keep their order, new domains follow once each, nothing else changes. */
module ScheduleApply {
  import opened Sequences
  import opened BlockingConfig
  import opened ScheduleModel
  import opened ScheduleEffects

  lemma {:induction false} MissingDistinct(desired: seq<Entry>, groups: seq<Group>)
    requires NoDuplicates(desired)
    ensures NoDuplicates(Missing(desired, groups))
  {
    if |desired| > 0 {
      var n := |desired| - 1;
      MissingDistinct(desired[..n], groups);
      assert desired[n] !in desired[..n];
    }
  }

  lemma {:induction false} DomainsDistinct(ts: seq<Entry>, name: string, a: Action)
    requires NoDuplicates(ts)
    ensures NoDuplicates(DomainsOf(ts, name, a))
  {
    if |ts| > 0 {
      var n := |ts| - 1;
      DomainsDistinct(ts[..n], name, a);
      assert ts[n] !in ts[..n];
      assert ts[n].group == name && ts[n].action == a ==> Entry(name, a, ts[n].domain) == ts[n];
    }
  }

  /** A list of a group afterwards: the old one without what the source tracked and no longer wants, in its order, then
      the wanted domains it did not hold, each once. */
  lemma ListAfterApply(groups: seq<Group>, s: Source, previous: set<Entry>, i: nat,
                       a: Action) returns (added: seq<string>)
    requires i < |groups| && IsFirst(groups, i)
    ensures Reconcile(groups, Desired(s), previous)[i].List(a) ==
            Without(groups[i].List(a), DomainsIn(previous - Wants(s), groups[i].name, a)) + added
    ensures NoDuplicates(added)
    ensures forall d :: d in added <==> Entry(groups[i].name, a, d) in Wants(s) && d !in groups[i].List(a)
  {
    var missing := Missing(Desired(s), groups);
    added := DomainsOf(missing, groups[i].name, a);
    IsFirstFrame(groups, Strip(groups, previous - Wants(s)), i);
    DedupDistinct(Product(s.groupNames, s.action, ResolveDomains(s)));
    MissingDistinct(Desired(s), groups);
    DomainsDistinct(missing, groups[i].name, a);
    forall d ensures d in added <==> Entry(groups[i].name, a, d) in Wants(s) && d !in groups[i].List(a) {
      assert d in added <==> Entry(groups[i].name, a, d) in missing;
    }
  }

  /** A later group of the same name is not touched. */
  lemma ShadowedGroupStays(groups: seq<Group>, s: Source, previous: set<Entry>, i: nat)
    requires i < |groups| && !IsFirst(groups, i)
    ensures Reconcile(groups, Desired(s), previous)[i] == groups[i]
  {
    IsFirstFrame(groups, Strip(groups, previous - Wants(s)), i);
  }
}
