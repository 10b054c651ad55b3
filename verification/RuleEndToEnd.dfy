/** Applying what an extractor proposes for a pattern, from the request to the coverage of the written groups. */
module RuleEndToEnd {
  import opened Strings
  import opened Sequences
  import opened Regex
  import opened RuleOptimizer
  import opened RuleZones
  import opened RuleHosts
  import opened RuleAcceptance
  import opened RuleApply

  // ---- proposals are normalised already --------------------------------------------------------------

  /** A lower-case text of label characters and dots that does not end in a dot. */
  predicate IsEntryText(e: string) {
    && |e| > 0 && e[|e| - 1] != '.'
    && forall i :: 0 <= i < |e| ==> (IsLabelChar(e[i]) || e[i] == '.') && LowerChar(e[i]) == e[i]
  }

  lemma EntryTextIsNormal(e: string)
    requires IsEntryText(e)
    ensures Normalize(e) == e
  {
    TrimTrims(e);
    assert Lower(e) == e;
  }

  predicate IsDotted(s: string) {
    && |s| > 0 && IsLabelChar(s[|s| - 1])
    && forall i :: 0 <= i < |s| ==> IsLabelChar(s[i]) || s[i] == '.'
  }

  lemma {:induction false} JoinIsDotted(labels: seq<string>)
    requires |labels| > 0 && AreLabels(labels)
    ensures IsDotted(Join(labels))
  {
    assert IsLabel(labels[0]);
    if |labels| > 1 {
      JoinIsDotted(labels[1..]);
      LabelDotDotted(labels[0], Join(labels[1..]));
    }
  }

  lemma LabelDotDotted(h: string, rest: string)
    requires IsLabel(h) && IsDotted(rest)
    ensures IsDotted(h + "." + rest)
  {
    var s := h + "." + rest;
    forall i | 0 <= i < |s| ensures IsLabelChar(s[i]) || s[i] == '.' {
      assert s[i] == if i < |h| then h[i] else if i == |h| then '.' else rest[i - |h| - 1];
    }
    assert s[|s| - 1] == rest[|rest| - 1];
  }

  lemma LowerIsEntryText(s: string)
    requires IsDotted(s)
    ensures IsEntryText(Lower(s))
  {
  }

  // ---- requests ------------------------------------------------------------------------------------------

  function One(entry: string): Proposal {
    Proposal(entry, [])
  }

  function All(entries: seq<string>): Proposal {
    Proposal("", entries)
  }

  lemma OneIsProposed(e: string)
    requires IsEntryText(e)
    ensures ProposedEntries(One(e)) == [e] && ProposedEntries(All([e])) == [e]
  {
    EntryTextIsNormal(e);
    TrimTrims(e);
    assert NormalizedEntries([]) == [];
  }

  lemma {:induction false} AllAreNormal(es: seq<string>)
    requires forall i :: 0 <= i < |es| ==> IsEntryText(es[i])
    ensures NormalizedEntries(es) == es
  {
    if |es| > 0 {
      var n := |es| - 1;
      AllAreNormal(es[..n]);
      EntryTextIsNormal(es[n]);
      InitLast(es);
    }
  }

  // ---- coverage of the written groups ----------------------------------------------------------------------

  /** Names covered on one side of a group whose domain list is read as it is stored. */
  ghost predicate CoveredBy(g: RuleGroup, t: Target, meaning: (string, string) -> bool, name: string) {
    Covers(NormalizedSet(g.Domains(t)), g.Patterns(t), meaning, name)
  }

  /** Every group but the first of that name is the same, that one also on its other side; there the target side covers
      what it covered before and the zones of `entries`, no more and no less. */
  ghost predicate CoverageGrowsBy(groups: seq<RuleGroup>, next: seq<RuleGroup>, i: int, t: Target, entries: seq<string>,
                                  meaning: (string, string) -> bool, name: string)
  {
    && 0 <= i < |groups| == |next|
    && (forall j :: 0 <= j < |groups| && j != i ==> next[j] == groups[j])
    && (var other := if t == AllowedRegex then BlockedRegex else AllowedRegex;
        next[i].Domains(other) == groups[i].Domains(other) && next[i].Patterns(other) == groups[i].Patterns(other))
    && (Covers(ToSet(next[i].Domains(t)), next[i].Patterns(t), meaning, name) <==>
        CoveredBy(groups[i], t, meaning, name) || exists e :: e in entries && IsSubdomainOf(name, e))
  }

  lemma AppliedCoverage(groups: seq<RuleGroup>, groupName: string, t: Target, pattern: string, p: Proposal,
                        leq: (string, string) -> bool, r: ApplyResult, meaning: (string, string) -> bool, name: string)
    requires Applies(groups, groupName, t, pattern, p, leq, r) && r.Updated?
    requires Replaceable(pattern, ProposedEntries(p), meaning) && Lower(name) == name
    ensures CoverageGrowsBy(groups, r.groups, IndexOf(groups, Lower(groupName)), t, ProposedEntries(p), meaning, name)
  {
    var i := IndexOf(groups, Lower(groupName));
    CoverageIsKept(groups[i], r.groups[i], t, pattern, ProposedEntries(p), leq, meaning, name);
  }

  lemma ZoneEntryText(p: string)
    requires ZoneShapeAt(p).Zone?
    ensures IsEntryText(Lower(Join(ZoneShapeAt(p).labels)))
  {
    var body := p[..|p| - 1];
    EscapedLabelsAreLabels(body[TailStart(body, 0)..]);
    JoinIsDotted(ZoneShapeAt(p).labels);
    LowerIsEntryText(Join(ZoneShapeAt(p).labels));
  }

  /** Applying the zone proposal: coverage grows by the zone and by nothing else. */
  lemma ZoneApplied(groups: seq<RuleGroup>, groupName: string, t: Target, pattern: string, leq: (string, string) -> bool,
                    r: ApplyResult, meaning: (string, string) -> bool, name: string)
    requires ZoneShapeOf(pattern).Zone? && AtMost(meaning, pattern, ZoneReOf(ZoneShapeOf(pattern)))
    requires Applies(groups, groupName, t, pattern, One(ExtractZone(pattern)), leq, r) && r.Updated? && Lower(name) == name
    ensures CoverageGrowsBy(groups, r.groups, IndexOf(groups, Lower(groupName)), t, [ExtractZone(pattern)], meaning, name)
  {
    ZoneEntryText(Trim(pattern));
    OneIsProposed(ExtractZone(pattern));
    ZoneReplaces(pattern, meaning);
    AppliedCoverage(groups, groupName, t, pattern, One(ExtractZone(pattern)), leq, r, meaning, name);
  }

  lemma ApexEntryText(pattern: string)
    requires |ApexLabels(pattern)| > 0
    ensures IsEntryText(ExtractApex(pattern))
  {
    var p := Trim(pattern);
    EscapedLabelsAreLabels(p[1..|p| - 1]);
    JoinIsDotted(ApexLabels(pattern));
    LowerIsEntryText(Join(ApexLabels(pattern)));
  }

  /** Applying the apex proposal. */
  lemma ApexApplied(groups: seq<RuleGroup>, groupName: string, t: Target, pattern: string, leq: (string, string) -> bool,
                    r: ApplyResult, meaning: (string, string) -> bool, name: string)
    requires |ApexLabels(pattern)| > 0 && AtMost(meaning, pattern, ApexRe(Join(ApexLabels(pattern))))
    requires Applies(groups, groupName, t, pattern, One(ExtractApex(pattern)), leq, r) && r.Updated? && Lower(name) == name
    ensures CoverageGrowsBy(groups, r.groups, IndexOf(groups, Lower(groupName)), t, [ExtractApex(pattern)], meaning, name)
  {
    ApexEntryText(pattern);
    OneIsProposed(ExtractApex(pattern));
    ApexReplaces(pattern, meaning);
    AppliedCoverage(groups, groupName, t, pattern, One(ExtractApex(pattern)), leq, r, meaning, name);
  }

  lemma DottedTailEntryText(s: string)
    requires |DottedTail(s)| > 0
    ensures IsDotted(Join(DottedTail(s))) && IsEntryText(Lower(Join(DottedTail(s))))
  {
    EscapedLabelsAreLabels(s[2..|s| - 1]);
    JoinIsDotted(DottedTail(s));
    LowerIsEntryText(Join(DottedTail(s)));
  }

  lemma HostEntryText(host: string, apex: string)
    requires IsLabel(host) && IsDotted(apex)
    ensures IsEntryText(Lower(host) + "." + Lower(apex))
  {
    LabelDotDotted(host, apex);
    LowerIsEntryText(host + "." + apex);
    LowerName(host, apex);
  }

  lemma ShapeEntryTexts(shape: HostShape)
    requires shape.Hosts? && IsDotted(Join(shape.labels)) && IsEntryText(Lower(Join(shape.labels)))
    requires forall h :: h in shape.hosts ==> IsLabel(h)
    ensures forall i :: 0 <= i < |HostNames(shape)| ==> IsEntryText(HostNames(shape)[i])
  {
    forall i | 0 <= i < |HostNames(shape)| ensures IsEntryText(HostNames(shape)[i]) {
      HostEntryText(shape.hosts[i], Join(shape.labels));
    }
  }

  lemma HostTailEntryTexts(capturing: bool, inner: string)
    requires HostTail(capturing, inner).Hosts?
    ensures var shape := HostTail(capturing, inner);
            && IsEntryText(Lower(Join(shape.labels)))
            && forall i :: 0 <= i < |HostNames(shape)| ==> IsEntryText(HostNames(shape)[i])
  {
    var n := FirstOf(inner, ')');
    HostTailParts(capturing, inner);
    DottedTailEntryText(inner[n + 1..]);
    BarLabelsAreLabels(inner[..n]);
    ShapeEntryTexts(HostTail(capturing, inner));
  }

  lemma HostEntryTexts(p: string)
    requires HostShapeAt(p).Hosts?
    ensures var shape := HostShapeAt(p);
            && IsEntryText(Lower(Join(shape.labels)))
            && forall i :: 0 <= i < |HostNames(shape)| ==> IsEntryText(HostNames(shape)[i])
  {
    if |p| >= 4 && p[..4] == "^(?:" {
      HostTailEntryTexts(false, p[4..]);
    } else {
      HostTailEntryTexts(true, p[2..]);
    }
  }

  /** What may be proposed for a host alternation: its apex zone, or the explicit host names. */
  predicate HostProposal(shape: HostShape, p: Proposal)
    requires shape.Hosts?
  {
    p == One(Lower(Join(shape.labels))) || p == All(HostNames(shape))
  }

  lemma HostsAreProposed(pattern: string, p: Proposal)
    requires HostShapeOf(pattern).Hosts? && HostProposal(HostShapeOf(pattern), p)
    ensures var shape := HostShapeOf(pattern);
            ProposedEntries(p) == if p == All(HostNames(shape)) then HostNames(shape) else [Lower(Join(shape.labels))]
  {
    var shape := HostShapeOf(pattern);
    HostEntryTexts(Trim(pattern));
    OneIsProposed(Lower(Join(shape.labels)));
    AllAreNormal(HostNames(shape));
    HostPatternText(pattern);
  }

  /** Applying either proposal for a host alternation. */
  lemma HostsApplied(groups: seq<RuleGroup>, groupName: string, t: Target, pattern: string, p: Proposal,
                     leq: (string, string) -> bool, r: ApplyResult, meaning: (string, string) -> bool, name: string)
    requires HostShapeOf(pattern).Hosts? && HostProposal(HostShapeOf(pattern), p)
    requires var shape := HostShapeOf(pattern);
             |shape.hosts| > 0 && AllNonEmpty(shape.hosts) && AtMost(meaning, pattern, HostRe(shape))
    requires Applies(groups, groupName, t, pattern, p, leq, r) && r.Updated? && Lower(name) == name
    ensures var shape := HostShapeOf(pattern);
            CoverageGrowsBy(groups, r.groups, IndexOf(groups, Lower(groupName)), t,
                            if p == All(HostNames(shape)) then HostNames(shape) else [Lower(Join(shape.labels))],
                            meaning, name)
  {
    HostsAreProposed(pattern, p);
    HostsReplace(pattern, meaning);
    AppliedCoverage(groups, groupName, t, pattern, p, leq, r, meaning, name);
  }

  lemma LabelEntryText(p: string)
    requires LabelShapeAt(p).LabelAlternation?
    ensures IsEntryText(Lower(Join(LabelShapeAt(p).labels)))
  {
    var s := if |p| >= 1 && p[0] == '^' then p[1..] else p;
    var inner := s[3..];
    LabelBodyParts(|p| >= 1 && p[0] == '^', inner);
    DottedTailEntryText(inner[FirstOf(inner, ')') + 1..]);
  }

  /** Applying the apex proposal for a label alternation, for any body and whatever it matches. */
  lemma LabelsApplied(groups: seq<RuleGroup>, groupName: string, t: Target, pattern: string, spans: Spans,
                      leq: (string, string) -> bool, r: ApplyResult, meaning: (string, string) -> bool, name: string)
    requires LabelShapeOf(pattern).LabelAlternation?
    requires AtMost(meaning, pattern, LabelRe(LabelShapeOf(pattern), spans))
    requires Applies(groups, groupName, t, pattern, One(Lower(Join(LabelShapeOf(pattern).labels))), leq, r)
    requires r.Updated? && Lower(name) == name
    ensures CoverageGrowsBy(groups, r.groups, IndexOf(groups, Lower(groupName)), t,
                            [Lower(Join(LabelShapeOf(pattern).labels))], meaning, name)
  {
    var apex := Lower(Join(LabelShapeOf(pattern).labels));
    LabelEntryText(Trim(pattern));
    OneIsProposed(apex);
    LabelsReplace(pattern, spans, meaning);
    AppliedCoverage(groups, groupName, t, pattern, One(apex), leq, r, meaning, name);
  }
}
