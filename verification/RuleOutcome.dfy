/** How an apply of an optimisation ends, in terms of the request and the groups alone. */
module RuleOutcome {
  import opened Strings
  import opened Sequences
  import opened Sorting
  import opened RuleApply

  /** Something else than blanks. */
  predicate HasContent(s: string) {
    exists i | 0 <= i < |s| :: !IsSpace(s[i])
  }

  lemma HasContentIff(s: string)
    ensures |Trim(s)| > 0 <==> HasContent(s)
  {
    var before, after := TrimStrips(s);
    if |Trim(s)| > 0 {
      assert s[|before|] == Trim(s)[0];
    } else {
      forall i | 0 <= i < |s| ensures IsSpace(s[i]) {
        assert s[i] in before || s[i] in after;
      }
    }
  }

  /** The request proposes the entry: its list names it, or, without a list, its single entry does. */
  ghost predicate Proposes(p: Proposal, e: string) {
    if |p.entries| > 0 then |e| > 0 && exists d :: d in p.entries && Normalize(d) == e
    else HasContent(p.entry) && e == Normalize(p.entry)
  }

  ghost predicate ProposesSome(p: Proposal) {
    exists e :: Proposes(p, e)
  }

  lemma ProposesIff(p: Proposal)
    ensures forall e :: e in ProposedEntries(p) <==> Proposes(p, e)
    ensures |ProposedEntries(p)| > 0 <==> ProposesSome(p)
  {
    HasContentIff(p.entry);
    EmptyIffNoMember(ProposedEntries(p));
  }

  /** The first group of the name, without case. */
  ghost predicate IsTarget(groups: seq<RuleGroup>, groupName: string, i: int) {
    && 0 <= i < |groups| && Lower(groups[i].name) == Lower(groupName)
    && forall j :: 0 <= j < i ==> Lower(groups[j].name) != Lower(groupName)
  }

  ghost predicate HasPattern(groups: seq<RuleGroup>, groupName: string, t: Target, pattern: string) {
    exists i :: IsTarget(groups, groupName, i) && pattern in groups[i].Patterns(t)
  }

  ghost predicate HasGroup(groups: seq<RuleGroup>, groupName: string) {
    exists i :: IsTarget(groups, groupName, i)
  }

  lemma TargetIff(groups: seq<RuleGroup>, groupName: string, i: int)
    ensures IsTarget(groups, groupName, i) <==> i >= 0 && i == IndexOf(groups, Lower(groupName))
  {
  }

  lemma TargetsIff(groups: seq<RuleGroup>, groupName: string, t: Target, pattern: string)
    ensures var i := IndexOf(groups, Lower(groupName));
            && (HasGroup(groups, groupName) <==> i >= 0)
            && (HasPattern(groups, groupName, t, pattern) <==> i >= 0 && pattern in groups[i].Patterns(t))
  {
    var i := IndexOf(groups, Lower(groupName));
    forall k ensures IsTarget(groups, groupName, k) <==> k >= 0 && k == i {
      TargetIff(groups, groupName, k);
    }
    if i >= 0 {
      assert IsTarget(groups, groupName, i);
    }
  }

  /** The outcomes in the order of the checks. */
  predicate Fits(r: ApplyResult, proposes: bool, content: bool, group: bool, found: bool) {
    match r
    case Rejected(NoEntries) => !proposes
    case Rejected(NoPattern) => proposes && !content
    case Rejected(GroupNotFound) => proposes && content && !group
    case Rejected(PatternNotFound) => proposes && content && group && !found
    case Updated(_) => proposes && content && found
  }

  lemma OneOutcome(r: ApplyResult, proposes: bool, content: bool, group: bool, found: bool)
    requires Fits(r, proposes, content, group, found) && (found ==> group)
    ensures r == Rejected(NoEntries) <==> !proposes
    ensures r == Rejected(NoPattern) <==> proposes && !content
    ensures r == Rejected(GroupNotFound) <==> proposes && content && !group
    ensures r == Rejected(PatternNotFound) <==> proposes && content && group && !found
    ensures r.Updated? <==> proposes && content && found
  {
  }

  lemma OutcomeFits(groups: seq<RuleGroup>, groupName: string, t: Target, pattern: string, p: Proposal,
                    leq: (string, string) -> bool, r: ApplyResult)
    requires Applies(groups, groupName, t, pattern, p, leq, r)
    ensures Fits(r, ProposesSome(p), HasContent(pattern), HasGroup(groups, groupName), HasPattern(groups, groupName, t, pattern))
    ensures HasPattern(groups, groupName, t, pattern) ==> HasGroup(groups, groupName)
  {
    ProposesIff(p);
    HasContentIff(pattern);
    TargetsIff(groups, groupName, t, pattern);
  }

  /** What is wrong with a request, checked in this order; without fault the groups are updated. */
  lemma OutcomeIff(groups: seq<RuleGroup>, groupName: string, t: Target, pattern: string, p: Proposal,
                   leq: (string, string) -> bool, r: ApplyResult)
    requires Applies(groups, groupName, t, pattern, p, leq, r)
    ensures r == Rejected(NoEntries) <==> !ProposesSome(p)
    ensures r == Rejected(NoPattern) <==> ProposesSome(p) && !HasContent(pattern)
    ensures r == Rejected(GroupNotFound) <==> ProposesSome(p) && HasContent(pattern) && !HasGroup(groups, groupName)
    ensures r == Rejected(PatternNotFound) <==>
            && ProposesSome(p) && HasContent(pattern) && HasGroup(groups, groupName)
            && !HasPattern(groups, groupName, t, pattern)
    ensures r.Updated? <==> ProposesSome(p) && HasContent(pattern) && HasPattern(groups, groupName, t, pattern)
  {
    OutcomeFits(groups, groupName, t, pattern, p, leq, r);
    OneOutcome(r, ProposesSome(p), HasContent(pattern), HasGroup(groups, groupName), HasPattern(groups, groupName, t, pattern));
  }

  /** The first occurrence goes, and nothing else. */
  lemma {:induction false} RemoveFirstIs(patterns: seq<string>, p: string) returns (k: nat)
    requires p in patterns
    ensures k < |patterns| && patterns[k] == p && p !in patterns[..k]
    ensures RemoveFirst(patterns, p) == patterns[..k] + patterns[k + 1..]
  {
    if patterns[0] == p {
      k := 0;
    } else {
      var j := RemoveFirstIs(patterns[1..], p);
      k := j + 1;
      assert patterns[..k] == [patterns[0]] + patterns[1..][..j];
      assert patterns[k + 1..] == patterns[1..][j + 1..];
    }
  }

  function Other(t: Target): Target {
    if t == AllowedRegex then BlockedRegex else AllowedRegex
  }

  /** An update takes the first occurrence of the pattern out of the target group's list, makes its domains the normalised
      old ones and the proposed ones, in order and each once, and changes nothing else. */
  lemma UpdateIs(groups: seq<RuleGroup>, groupName: string, t: Target, pattern: string, p: Proposal,
                 leq: (string, string) -> bool, r: ApplyResult, i: int) returns (k: nat)
    requires Applies(groups, groupName, t, pattern, p, leq, r) && r.Updated? && IsTarget(groups, groupName, i)
    ensures |r.groups| == |groups| && forall j :: 0 <= j < |groups| && j != i ==> r.groups[j] == groups[j]
    ensures var g, h := groups[i], r.groups[i];
            && h.name == g.name && h.Domains(Other(t)) == g.Domains(Other(t)) && h.Patterns(Other(t)) == g.Patterns(Other(t))
            && k < |g.Patterns(t)| && g.Patterns(t)[k] == pattern && pattern !in g.Patterns(t)[..k]
            && h.Patterns(t) == g.Patterns(t)[..k] + g.Patterns(t)[k + 1..]
            && NoDuplicates(h.Domains(t)) && SortedBy(h.Domains(t), leq)
            && forall d :: d in h.Domains(t) <==> (exists x :: x in g.Domains(t) && Normalize(x) == d) || Proposes(p, d)
  {
    TargetIff(groups, groupName, i);
    ProposesIff(p);
    var g, h := groups[i], r.groups[i];
    k := RemoveFirstIs(g.Patterns(t), pattern);
    forall d ensures d in h.Domains(t) <==> (exists x :: x in g.Domains(t) && Normalize(x) == d) || Proposes(p, d) {
      assert d in h.Domains(t) <==> d in ToSet(h.Domains(t));
      assert d in ToSet(ProposedEntries(p)) <==> d in ProposedEntries(p);
    }
  }
}
