/** Applying an optimisation: one regex out, its proposed entries in, and what that does to the names covered. */
module RuleApply {
  import opened Strings
  import opened Sequences
  import opened Sorting
  import opened Regex
  import opened RuleOptimizer
  import opened RuleZones
  import opened RuleHosts

  datatype Target = AllowedRegex | BlockedRegex

  datatype RuleGroup = RuleGroup(name: string, allowed: seq<string>, blocked: seq<string>, allowedRegex: seq<string>,
                                 blockedRegex: seq<string>)
  {
    function Domains(t: Target): seq<string> {
      match t case AllowedRegex => allowed case BlockedRegex => blocked
    }

    function Patterns(t: Target): seq<string> {
      match t case AllowedRegex => allowedRegex case BlockedRegex => blockedRegex
    }

    function With(t: Target, domains: seq<string>, patterns: seq<string>): RuleGroup {
      match t
      case AllowedRegex => this.(allowed := domains, allowedRegex := patterns)
      case BlockedRegex => this.(blocked := domains, blockedRegex := patterns)
    }
  }

  datatype ApplyError = NoEntries | NoPattern | GroupNotFound | PatternNotFound

  datatype ApplyResult = Rejected(error: ApplyError) | Updated(groups: seq<RuleGroup>)

  /** Trim, one trailing dot off, lower case. */
  function Normalize(d: string): string {
    var t := Trim(d);
    Lower(if t != "" && t[|t| - 1] == '.' then t[..|t| - 1] else t)
  }

  /** An entry is normalised to `e` exactly if it is `e` but for blanks at its ends, case, and one dot at its end. */
  lemma NormalizeIff(d: string, e: string)
    ensures var t := Lower(Trim(d));
            Normalize(d) == e <==> if |t| > 0 && t[|t| - 1] == '.' then t == e + "." else t == e
  {
    var t := Trim(d);
    if |t| > 0 && t[|t| - 1] == '.' {
      assert Lower(t) == Lower(t[..|t| - 1]) + ".";
      assert Lower(t)[..|t| - 1] == Lower(t[..|t| - 1]);
      assert (e + ".")[..|e|] == e;
    }
  }

  function NormalizedSet(domains: seq<string>): set<string> {
    set d | d in domains :: Normalize(d)
  }

  /** `splice(findIndex(...), 1)` */
  function RemoveFirst(patterns: seq<string>, p: string): seq<string>
    requires p in patterns
  {
    if patterns[0] == p then patterns[1..] else [patterns[0]] + RemoveFirst(patterns[1..], p)
  }

  /** The normalised entries of a list that are not blank. */
  function NormalizedEntries(raw: seq<string>): (r: seq<string>)
    ensures forall e :: e in r <==> e != "" && exists d :: d in raw && Normalize(d) == e
  {
    if raw == [] then []
    else
      var init, last := raw[..|raw| - 1], raw[|raw| - 1];
      assert raw == init + [last];
      NormalizedEntries(init) + (if Normalize(last) == "" then [] else [Normalize(last)])
  }

  /** The two ways to propose entries: a list, which takes precedence if it is not empty, or one entry. */
  datatype Proposal = Proposal(entry: string, entries: seq<string>)

  /** A single entry is kept even if nothing is left of it (it was a dot). */
  function ProposedEntries(p: Proposal): seq<string> {
    if |p.entries| > 0 then NormalizedEntries(p.entries)
    else if |Trim(p.entry)| > 0 then [Normalize(p.entry)]
    else []
  }

  function IndexOf(groups: seq<RuleGroup>, key: string): (i: int)
    ensures -1 <= i < |groups|
    ensures i >= 0 ==> Lower(groups[i].name) == key && forall j :: 0 <= j < i ==> Lower(groups[j].name) != key
    ensures i < 0 ==> forall j :: 0 <= j < |groups| ==> Lower(groups[j].name) != key
  {
    if groups == [] then -1
    else if Lower(groups[0].name) == key then 0
    else
      var i := IndexOf(groups[1..], key);
      if i < 0 then -1 else i + 1
  }

  /** `h` is `g` with the first occurrence of the pattern gone and the entries added to the normalised domain list of the
      target side, sorted and without duplicates; everything else is the same. */
  ghost predicate Optimized(g: RuleGroup, h: RuleGroup, t: Target, pattern: string, entries: seq<string>,
                            leq: (string, string) -> bool)
  {
    && pattern in g.Patterns(t)
    && h == g.With(t, h.Domains(t), RemoveFirst(g.Patterns(t), pattern))
    && ToSet(h.Domains(t)) == NormalizedSet(g.Domains(t)) + ToSet(entries)
    && NoDuplicates(h.Domains(t)) && SortedBy(h.Domains(t), leq)
  }

  /** `[...set].sort((a, b) => a.localeCompare(b))` */
  method SortedList(s: set<string>, leq: (string, string) -> bool) returns (r: seq<string>)
    requires TotalOrder(leq)
    ensures ToSet(r) == s && NoDuplicates(r) && SortedBy(r, leq)
  {
    var list: seq<string> := [];
    var rest := s;
    while rest != {}
      invariant rest <= s && ToSet(list) == s - rest && NoDuplicates(list)
      decreases rest
    {
      var x :| x in rest;
      rest := rest - {x};
      assert x !in ToSet(list);
      ToSetAppend(list, x);
      list := list + [x];
    }
    r := Sort(list, leq);
    PermutationMembers(r, list);
    assert ToSet(r) == ToSet(list);
    PermutationDistinct(r, list);
  }

  /** What an apply gives: the first refusal that holds, or the groups with one of them optimised. */
  ghost predicate Applies(groups: seq<RuleGroup>, groupName: string, t: Target, pattern: string, p: Proposal,
                          leq: (string, string) -> bool, r: ApplyResult)
  {
    var entries, i := ProposedEntries(p), IndexOf(groups, Lower(groupName));
    match r
    case Rejected(NoEntries) => |entries| == 0
    case Rejected(NoPattern) => |entries| > 0 && |Trim(pattern)| == 0
    case Rejected(GroupNotFound) => |entries| > 0 && |Trim(pattern)| > 0 && i < 0
    case Rejected(PatternNotFound) =>
      |entries| > 0 && |Trim(pattern)| > 0 && i >= 0 && pattern !in groups[i].Patterns(t)
    case Updated(next) =>
      && |entries| > 0 && |Trim(pattern)| > 0 && i >= 0
      && |next| == |groups| && Optimized(groups[i], next[i], t, pattern, entries, leq)
      && forall j :: 0 <= j < |groups| && j != i ==> next[j] == groups[j]
  }

  /** `applyGroupRuleOptimization`, from the loaded groups to the groups that are written. */
  method ApplyOptimization(groups: seq<RuleGroup>, groupName: string, t: Target, pattern: string, p: Proposal,
                           leq: (string, string) -> bool)
    returns (r: ApplyResult)
    requires TotalOrder(leq)
    ensures Applies(groups, groupName, t, pattern, p, leq, r)
  {
    var entries := ProposedEntries(p);
    if |entries| == 0 {
      return Rejected(NoEntries);
    }
    if |Trim(pattern)| == 0 {
      return Rejected(NoPattern);
    }
    var i := IndexOf(groups, Lower(groupName));
    if i < 0 {
      return Rejected(GroupNotFound);
    }
    var group := groups[i];
    var domains := NormalizedSet(group.Domains(t));
    if pattern !in group.Patterns(t) {
      return Rejected(PatternNotFound);
    }
    domains := AddAll(domains, entries);
    var list := SortedList(domains, leq);
    var next := groups[i := group.With(t, list, RemoveFirst(group.Patterns(t), pattern))];
    r := Updated(next);
  }

  method AddAll(domains: set<string>, entries: seq<string>) returns (r: set<string>)
    ensures r == domains + ToSet(entries)
  {
    r := domains;
    for n := 0 to |entries|
      invariant r == domains + ToSet(entries[..n])
    {
      r := r + {entries[n]};
      ToSetAppend(entries[..n], entries[n]);
      assert entries[..n + 1] == entries[..n] + [entries[n]];
    }
    assert entries[..|entries|] == entries;
  }

  // ---- coverage --------------------------------------------------------------------------------

  /** What a side covers: names in the zone of some entry, and names some pattern matches. `meaning` tells which names a
      pattern text matches. */
  ghost predicate Covers(zones: set<string>, patterns: seq<string>, meaning: (string, string) -> bool, name: string) {
    (exists e :: e in zones && IsSubdomainOf(name, e)) || (exists p :: p in patterns && meaning(p, name))
  }

  /** Every lower-case name the pattern matches lies in the zone of some entry. */
  ghost predicate Replaceable(pattern: string, entries: seq<string>, meaning: (string, string) -> bool) {
    forall name :: Lower(name) == name && meaning(pattern, name) ==> exists e :: e in entries && IsSubdomainOf(name, e)
  }

  lemma {:induction false} RemoveFirstKeepsOthers(patterns: seq<string>, p: string, q: string)
    requires p in patterns
    ensures q in RemoveFirst(patterns, p) ==> q in patterns
    ensures q != p && q in patterns ==> q in RemoveFirst(patterns, p)
  {
    if patterns[0] != p {
      RemoveFirstKeepsOthers(patterns[1..], p, q);
    }
  }

  /** Applying an optimisation with entries that replace the pattern never shrinks coverage: the target side covers exactly
      what it covered before plus the new zones, and the other side is untouched. */
  lemma CoverageIsKept(g: RuleGroup, h: RuleGroup, t: Target, pattern: string, entries: seq<string>,
                       leq: (string, string) -> bool, meaning: (string, string) -> bool, name: string)
    requires Optimized(g, h, t, pattern, entries, leq) && Replaceable(pattern, entries, meaning) && Lower(name) == name
    ensures Covers(ToSet(h.Domains(t)), h.Patterns(t), meaning, name) <==>
            Covers(NormalizedSet(g.Domains(t)), g.Patterns(t), meaning, name) ||
            exists e :: e in entries && IsSubdomainOf(name, e)
    ensures var other := if t == AllowedRegex then BlockedRegex else AllowedRegex;
            h.Domains(other) == g.Domains(other) && h.Patterns(other) == g.Patterns(other)
  {
    forall q ensures q in h.Patterns(t) ==> q in g.Patterns(t) {
      RemoveFirstKeepsOthers(g.Patterns(t), pattern, q);
    }
    forall q ensures q != pattern && q in g.Patterns(t) ==> q in h.Patterns(t) {
      RemoveFirstKeepsOthers(g.Patterns(t), pattern, q);
    }
    var zones := NormalizedSet(g.Domains(t));
    assert ToSet(h.Domains(t)) == zones + ToSet(entries);
    if Covers(zones, g.Patterns(t), meaning, name) || exists e :: e in entries && IsSubdomainOf(name, e) {
      CoveredAfter(zones, g.Patterns(t), h.Patterns(t), pattern, entries, meaning, name);
    }
  }

  lemma CoveredAfter(zones: set<string>, before: seq<string>, after: seq<string>, pattern: string, entries: seq<string>,
                     meaning: (string, string) -> bool, name: string)
    requires forall q :: q != pattern && q in before ==> q in after
    requires Replaceable(pattern, entries, meaning) && Lower(name) == name
    requires Covers(zones, before, meaning, name) || exists e :: e in entries && IsSubdomainOf(name, e)
    ensures Covers(zones + ToSet(entries), after, meaning, name)
  {
    if e :| e in zones && IsSubdomainOf(name, e) {
      assert e in zones + ToSet(entries);
    } else if e :| e in entries && IsSubdomainOf(name, e) {
      assert e in zones + ToSet(entries);
    } else {
      var p :| p in before && meaning(p, name);
      assert p != pattern;
    }
  }

  // ---- the extractors' proposals replace their patterns --------------------------------------------

  /** `meaning` gives this text no more names than the expression matches. */
  ghost predicate AtMost(meaning: (string, string) -> bool, pattern: string, re: Re) {
    forall name :: meaning(pattern, name) ==> Found(re, name)
  }

  lemma ZoneReplaces(pattern: string, meaning: (string, string) -> bool)
    requires ZoneShapeOf(pattern).Zone? && AtMost(meaning, pattern, ZoneReOf(ZoneShapeOf(pattern)))
    ensures Replaceable(pattern, [ExtractZone(pattern)], meaning)
  {
    forall name | Lower(name) == name && meaning(pattern, name)
      ensures exists e :: e in [ExtractZone(pattern)] && IsSubdomainOf(name, e)
    {
      ZoneExtractionSound(pattern, name);
      assert ExtractZone(pattern) in [ExtractZone(pattern)];
    }
  }

  lemma ApexReplaces(pattern: string, meaning: (string, string) -> bool)
    requires |ApexLabels(pattern)| > 0 && AtMost(meaning, pattern, ApexRe(Join(ApexLabels(pattern))))
    ensures Replaceable(pattern, [ExtractApex(pattern)], meaning)
  {
    forall name | Lower(name) == name && meaning(pattern, name)
      ensures exists e :: e in [ExtractApex(pattern)] && IsSubdomainOf(name, e)
    {
      ApexExtractionExact(pattern, name);
      assert ExtractApex(pattern) in [ExtractApex(pattern)];
    }
  }

  /** Both proposals for a host alternation: the apex zone, and the list of explicit host names. */
  lemma HostsReplace(pattern: string, meaning: (string, string) -> bool)
    requires HostShapeOf(pattern).Hosts?
    requires var shape := HostShapeOf(pattern);
             |shape.hosts| > 0 && AllNonEmpty(shape.hosts) && AtMost(meaning, pattern, HostRe(shape))
    ensures Replaceable(pattern, [Lower(Join(HostShapeOf(pattern).labels))], meaning)
    ensures Replaceable(pattern, HostNames(HostShapeOf(pattern)), meaning)
  {
    var shape := HostShapeOf(pattern);
    var apex := Lower(Join(shape.labels));
    forall name | Lower(name) == name && meaning(pattern, name)
      ensures exists e :: e in [apex] && IsSubdomainOf(name, e)
      ensures exists e :: e in HostNames(shape) && IsSubdomainOf(name, e)
    {
      HostExtractionExact(pattern, name);
      assert apex in [apex];
      assert name in HostNames(shape) && IsSubdomainOf(name, name);
    }
  }

  /** For any body of the label alternation and whatever it matches. */
  lemma LabelsReplace(pattern: string, spans: Spans, meaning: (string, string) -> bool)
    requires LabelShapeOf(pattern).LabelAlternation?
    requires AtMost(meaning, pattern, LabelRe(LabelShapeOf(pattern), spans))
    ensures Replaceable(pattern, [Lower(Join(LabelShapeOf(pattern).labels))], meaning)
  {
    var apex := Lower(Join(LabelShapeOf(pattern).labels));
    forall name | Lower(name) == name && meaning(pattern, name)
      ensures exists e :: e in [apex] && IsSubdomainOf(name, e)
    {
      LabelExtractionExact(pattern, spans, name);
      assert apex in [apex];
    }
  }
}
