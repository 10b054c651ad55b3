/** The apex, host-alternation and label-alternation extractors. */
module RuleHosts {
  import opened Strings
  import opened Sequences
  import opened Regex
  import opened RuleOptimizer
  import opened RuleZones

  // ---- apex only -------------------------------------------------------------------------------

  /** Labels of `^label(\.label)+$`, or nothing. */
  function ApexLabels(pattern: string): seq<string> {
    var p := Trim(pattern);
    if |p| < 2 || p[0] != '^' || p[|p| - 1] != '$' then []
    else
      var labels := EscapedLabels(p[1..|p| - 1]);
      if |labels| >= 2 && LooksLikeDomain(labels) then labels else []
  }

  /** `extractExactApexDomainFromRegex`; "" stands for null. */
  function ExtractApex(pattern: string): string {
    if ApexLabels(pattern) == [] then "" else Lower(Join(ApexLabels(pattern)))
  }

  function ApexRe(d: string): Re {
    Cat(Start, Literal(d, End))
  }

  lemma ApexFound(d: string, name: string)
    ensures Found(ApexRe(d), name) <==> Lower(name) == Lower(d)
  {
    if Found(ApexRe(d), name) {
      var i, j :| 0 <= i <= j <= |name| && Matches(ApexRe(d), name, i, j);
      var k := CatSplit(Start, Literal(d, End), name, i, j);
      LiteralAtEnd(d, name, k, j);
      ReadsAtIsLower(d, name);
      assert Lower(name)[0..] == Lower(name);
    }
    if Lower(name) == Lower(d) {
      ReadsAtIsLower(d, name);
      assert Lower(name)[0..] == Lower(name);
      LiteralAtEnd(d, name, 0, |name|);
      CatJoin(Start, Literal(d, End), name, 0, 0, |name|);
    }
  }

  /** An apex-only pattern matches the apex and nothing else; the zone entry proposed for it covers the apex. */
  lemma ApexExtractionExact(pattern: string, name: string)
    requires |ApexLabels(pattern)| > 0
    ensures Text(ApexRe(Join(ApexLabels(pattern)))) == Trim(pattern)
    ensures Found(ApexRe(Join(ApexLabels(pattern))), name) <==> Lower(name) == ExtractApex(pattern)
    ensures Lower(name) == ExtractApex(pattern) ==> IsSubdomainOf(Lower(name), ExtractApex(pattern))
  {
    var p, labels := Trim(pattern), ApexLabels(pattern);
    EscapeJoined(p[1..|p| - 1]);
    JoinNonEmpty(labels);
    LiteralEndText(Join(labels));
    assert p == "^" + (p[1..|p| - 1] + "$");
    ApexFound(Join(labels), name);
  }

  // ---- alternations ----------------------------------------------------------------------------

  /** The parts of `label(|label)*`, or nothing. */
  function BarLabels(s: string): seq<string> {
    var n := LabelPrefix(s);
    if n == 0 then []
    else if n == |s| then [s]
    else if s[n] == '|' then
      var rest := BarLabels(s[n + 1..]);
      if rest == [] then [] else [s[..n]] + rest
    else []
  }

  function JoinBar(parts: seq<string>): string {
    if parts == [] then ""
    else if |parts| == 1 then parts[0]
    else parts[0] + ("|" + JoinBar(parts[1..]))
  }

  /** `^(a|b|...)\.apex$` or `^(?:a|b|...)\.apex$`, taken apart. */
  datatype HostShape = NoHosts | Hosts(capturing: bool, hosts: seq<string>, labels: seq<string>)

  /** The labels of `\.label(\.label)+$`, or nothing. */
  function DottedTail(s: string): seq<string> {
    if |s| < 3 || s[..2] != "\\." || s[|s| - 1] != '$' then []
    else
      var labels := EscapedLabels(s[2..|s| - 1]);
      if |labels| >= 2 && LooksLikeDomain(labels) then labels else []
  }

  function HostShapeOf(pattern: string): HostShape {
    HostShapeAt(Trim(pattern))
  }

  function HostShapeAt(p: string): HostShape {
    if |p| < 2 || p[..2] != "^(" then NoHosts
    else if |p| >= 4 && p[..4] == "^(?:" then HostTail(false, p[4..])
    else HostTail(true, p[2..])
  }

  /** What follows the opening parenthesis. */
  function HostTail(capturing: bool, inner: string): HostShape {
    var n := FirstOf(inner, ')');
    if n == |inner| then NoHosts
    else
      var hosts, labels := BarLabels(inner[..n]), DottedTail(inner[n + 1..]);
      if |hosts| < 2 || labels == [] || exists i | 0 <= i < |hosts| :: !HostOk(hosts[i]) then NoHosts
      else Hosts(capturing, hosts, labels)
  }

  predicate HostOk(h: string) {
    |h| > 0 && h[0] != '-' && h[|h| - 1] != '-'
  }

  /** The full names that `extractSimpleAlternationHostPatternFromRegex` leads to, and their apex. */
  function HostNames(shape: HostShape): (r: seq<string>)
    requires shape.Hosts?
    ensures |r| == |shape.hosts|
    ensures forall i :: 0 <= i < |r| ==> r[i] == Lower(shape.hosts[i]) + "." + Lower(Join(shape.labels))
  {
    seq(|shape.hosts|, i requires 0 <= i < |shape.hosts| => Lower(shape.hosts[i]) + "." + Lower(Join(shape.labels)))
  }

  predicate AllNonEmpty(hosts: seq<string>) {
    forall i | 0 <= i < |hosts| :: |hosts[i]| > 0
  }

  function Word(h: string): Re
    requires |h| > 0
  {
    if |h| == 1 then Chr(h[0]) else Cat(Chr(h[0]), Word(h[1..]))
  }

  function Words(hosts: seq<string>): Re
    requires |hosts| > 0 && AllNonEmpty(hosts)
  {
    if |hosts| == 1 then Word(hosts[0]) else Alt(Word(hosts[0]), Words(hosts[1..]))
  }

  function UnderApex(g: Re, d: string): Re {
    Cat(g, Cat(Chr('.'), Literal(d, End)))
  }

  function HostRe(shape: HostShape): Re
    requires shape.Hosts? && |shape.hosts| > 0 && AllNonEmpty(shape.hosts)
  {
    Cat(Start, UnderApex(Group(shape.capturing, Words(shape.hosts)), Join(shape.labels)))
  }

  // ---- texts -----------------------------------------------------------------------------------

  lemma {:induction false} WordText(h: string)
    requires |h| > 0 && forall i :: 0 <= i < |h| ==> !IsMeta(h[i])
    ensures Text(Word(h)) == h
  {
    if |h| > 1 {
      WordText(h[1..]);
      assert [h[0]] + h[1..] == h;
    }
  }

  lemma WordsText(h: string, rest: seq<string>)
    requires |h| > 0 && |rest| > 0 && AllNonEmpty(rest)
    ensures AllNonEmpty([h] + rest)
    ensures Text(Words([h] + rest)) == Text(Word(h)) + ("|" + Text(Words(rest)))
  {
    assert ([h] + rest)[1..] == rest;
  }

  lemma BarLabelsCons(s: string)
    requires |BarLabels(s)| > 0 && LabelPrefix(s) < |s|
    ensures var n := LabelPrefix(s);
            n > 0 && s[n] == '|' && |BarLabels(s[n + 1..])| > 0 && BarLabels(s) == [s[..n]] + BarLabels(s[n + 1..])
  {
  }

  lemma {:induction false} BarLabelsText(s: string)
    requires |BarLabels(s)| > 0
    ensures AllNonEmpty(BarLabels(s))
    ensures Text(Words(BarLabels(s))) == s
  {
    var n := LabelPrefix(s);
    if n < |s| {
      BarLabelsCons(s);
      var h, tail := s[..n], s[n + 1..];
      WordText(h);
      BarLabelsText(tail);
      WordsText(h, BarLabels(tail));
      SplitAround(s, n);
    } else {
      WordText(s);
    }
  }

  lemma UnderApexText(g: Re, d: string)
    ensures Text(UnderApex(g, d)) == Text(g) + ("\\." + (Escape(d) + "$"))
  {
    LiteralEndText(d);
  }

  lemma DottedTailText(s: string)
    requires |DottedTail(s)| > 0
    ensures s == "\\." + (Escape(Join(DottedTail(s))) + "$")
    ensures |Join(DottedTail(s))| > 0
  {
    EscapeJoined(s[2..|s| - 1]);
    JoinNonEmpty(DottedTail(s));
    SplitEnds(s, 2);
  }

  /** The text of a group followed by a dotted tail, from the pieces a parser sees. */
  lemma GroupTailText(capturing: bool, r: Re, inner: string, n: nat)
    requires n < |inner| && inner[n] == ')' && Text(r) == inner[..n] && |DottedTail(inner[n + 1..])| > 0
    ensures Text(UnderApex(Group(capturing, r), Join(DottedTail(inner[n + 1..])))) ==
            (if capturing then "(" else "(?:") + inner
  {
    var tail := inner[n + 1..];
    var opener := if capturing then "(" else "(?:";
    DottedTailText(tail);
    UnderApexText(Group(capturing, r), Join(DottedTail(tail)));
    SplitAround(inner, n);
    AssocText(opener, inner[..n] + ")", tail);
    AssocText(inner[..n], ")", tail);
  }

  lemma HostPrefix(p: string)
    requires |p| >= 2 && p[..2] == "^("
    ensures p == "^" + ("(" + p[2..])
    ensures |p| >= 4 && p[..4] == "^(?:" ==> p == "^" + ("(?:" + p[4..])
  {
    SplitPrefix(p, "^(");
    if |p| >= 4 && p[..4] == "^(?:" {
      SplitPrefix(p, "^(?:");
    }
  }

  lemma HostTailParts(capturing: bool, inner: string)
    requires HostTail(capturing, inner).Hosts?
    ensures var n := FirstOf(inner, ')');
            && n < |inner| && |BarLabels(inner[..n])| > 0 && |DottedTail(inner[n + 1..])| > 0
            && HostTail(capturing, inner) == Hosts(capturing, BarLabels(inner[..n]), DottedTail(inner[n + 1..]))
  {
  }

  lemma HostTailText(capturing: bool, inner: string)
    requires HostTail(capturing, inner).Hosts?
    ensures var shape := HostTail(capturing, inner);
            && shape.capturing == capturing && |shape.hosts| > 0 && AllNonEmpty(shape.hosts) && |Join(shape.labels)| > 0
            && Text(UnderApex(Group(capturing, Words(shape.hosts)), Join(shape.labels))) ==
               (if capturing then "(" else "(?:") + inner
  {
    var n := FirstOf(inner, ')');
    HostTailParts(capturing, inner);
    BarLabelsText(inner[..n]);
    JoinNonEmpty(DottedTail(inner[n + 1..]));
    GroupTailText(capturing, Words(BarLabels(inner[..n])), inner, n);
  }

  lemma HostPatternTextAt(p: string)
    requires HostShapeAt(p).Hosts?
    ensures var shape := HostShapeAt(p);
            && |shape.hosts| > 0 && AllNonEmpty(shape.hosts)
            && Text(HostRe(shape)) == p
            && |Join(shape.labels)| > 0
  {
    HostPrefix(p);
    if |p| >= 4 && p[..4] == "^(?:" {
      HostTailText(false, p[4..]);
    } else {
      HostTailText(true, p[2..]);
    }
  }

  lemma HostPatternText(pattern: string)
    requires HostShapeOf(pattern).Hosts?
    ensures var shape := HostShapeOf(pattern);
            && |shape.hosts| > 0 && AllNonEmpty(shape.hosts)
            && Text(HostRe(shape)) == Trim(pattern)
            && |Join(shape.labels)| > 0
  {
    HostPatternTextAt(Trim(pattern));
  }

  // ---- meanings --------------------------------------------------------------------------------

  lemma {:induction false} WordMatches(h: string, s: string, i: int, j: int)
    requires |h| > 0 && 0 <= i
    ensures Matches(Word(h), s, i, j) <==> j == i + |h| && ReadsAt(h, s, i)
  {
    if |h| > 1 {
      ChrThen(h[0], Word(h[1..]), s, i, j);
      WordMatches(h[1..], s, i + 1, j);
      ReadsAtStep(h, s, i);
    }
  }

  lemma {:induction false} WordsMatch(hosts: seq<string>, s: string, i: int, j: int)
    requires |hosts| > 0 && AllNonEmpty(hosts) && 0 <= i
    ensures Matches(Words(hosts), s, i, j) <==>
            exists x :: 0 <= x < |hosts| && j == i + |hosts[x]| && ReadsAt(hosts[x], s, i)
  {
    WordMatches(hosts[0], s, i, j);
    if |hosts| > 1 {
      WordsMatch(hosts[1..], s, i, j);
      if Matches(Words(hosts[1..]), s, i, j) {
        var x :| 0 <= x < |hosts[1..]| && j == i + |hosts[1..][x]| && ReadsAt(hosts[1..][x], s, i);
        assert hosts[x + 1] == hosts[1..][x];
      }
      if x :| 0 <= x < |hosts| && j == i + |hosts[x]| && ReadsAt(hosts[x], s, i) {
        if x > 0 {
          assert hosts[1..][x - 1] == hosts[x];
        }
      }
    }
  }

  /** Whatever the group matches, the rest of the pattern pins the name below the apex. */
  lemma UnderApexSplit(g: Re, d: string, s: string, i: int, j: int) returns (k: int)
    requires Matches(UnderApex(g, d), s, i, j)
    ensures 0 <= i <= k < |s| && Matches(g, s, i, k) && s[k] == '.' && k + 1 + |d| == |s| && ReadsAt(d, s, k + 1) && j == |s|
    ensures ZoneTail(s, d)
  {
    k := CatSplit(g, Cat(Chr('.'), Literal(d, End)), s, i, j);
    ChrThen('.', Literal(d, End), s, k, j);
    LiteralAtEnd(d, s, k + 1, j);
  }

  lemma UnderApexMatches(g: Re, d: string, s: string, i: int, k: int)
    requires 0 <= i <= k < |s| && Matches(g, s, i, k) && s[k] == '.' && k + 1 + |d| == |s| && ReadsAt(d, s, k + 1)
    ensures Matches(UnderApex(g, d), s, i, |s|)
  {
    LiteralAtEnd(d, s, k + 1, |s|);
    ChrThen('.', Literal(d, End), s, k, |s|);
    CatJoin(g, Cat(Chr('.'), Literal(d, End)), s, i, k, |s|);
  }

  lemma UnderApexJoin(g: Re, d: string, s: string, k: int)
    requires 0 <= k < |s| && Matches(g, s, 0, k) && s[k] == '.' && k + 1 + |d| == |s| && ReadsAt(d, s, k + 1)
    ensures Found(Cat(Start, UnderApex(g, d)), s)
  {
    UnderApexMatches(g, d, s, 0, k);
    CatJoin(Start, UnderApex(g, d), s, 0, 0, |s|);
  }

  lemma LowerName(h: string, d: string)
    ensures Lower(h + "." + d) == Lower(h) + "." + Lower(d)
  {
  }

  lemma ReadsName(h: string, d: string, s: string)
    ensures |s| == |h| + 1 + |d| && ReadsAt(h, s, 0) && s[|h|] == '.' && ReadsAt(d, s, |h| + 1) <==>
            |s| == |h + "." + d| && ReadsAt(h + "." + d, s, 0)
  {
    var n := h + "." + d;
    if |s| == |n| && ReadsAt(n, s, 0) {
      forall k | 0 <= k < |h| ensures LowerChar(h[k]) == LowerChar(s[0 + k]) {
        assert LowerChar(n[k]) == LowerChar(s[0 + k]);
      }
      forall k | 0 <= k < |d| ensures LowerChar(d[k]) == LowerChar(s[|h| + 1 + k]) {
        assert LowerChar(n[|h| + 1 + k]) == LowerChar(s[0 + (|h| + 1 + k)]);
      }
      assert LowerChar(n[|h|]) == LowerChar(s[0 + |h|]);
    }
    if |s| == |n| && ReadsAt(h, s, 0) && s[|h|] == '.' && ReadsAt(d, s, |h| + 1) {
      forall k | 0 <= k < |n| ensures LowerChar(n[k]) == LowerChar(s[0 + k]) {
        if k > |h| {
          assert LowerChar(d[k - |h| - 1]) == LowerChar(s[|h| + 1 + (k - |h| - 1)]);
        }
      }
    }
  }

  lemma HostNameReads(h: string, d: string, s: string)
    ensures Lower(s) == Lower(h) + "." + Lower(d) <==>
            |s| == |h| + 1 + |d| && ReadsAt(h, s, 0) && s[|h|] == '.' && ReadsAt(d, s, |h| + 1)
  {
    LowerName(h, d);
    ReadsName(h, d, s);
    SameLower(h + "." + d, s);
  }

  /** A host alternation matches exactly the listed names below the apex, all of which the apex zone covers. */
  lemma HostExtractionExact(pattern: string, name: string)
    requires HostShapeOf(pattern).Hosts?
    ensures var shape := HostShapeOf(pattern);
            && |shape.hosts| > 0 && AllNonEmpty(shape.hosts)
            && Text(HostRe(shape)) == Trim(pattern)
            && (Found(HostRe(shape), name) <==> Lower(name) in HostNames(shape))
            && (Found(HostRe(shape), name) ==> IsSubdomainOf(Lower(name), Lower(Join(shape.labels))))
  {
    var shape := HostShapeOf(pattern);
    HostPatternText(pattern);
    HostReFound(shape, name);
  }

  ghost predicate ReadsHost(hosts: seq<string>, d: string, s: string, x: int) {
    0 <= x < |hosts| && Lower(s) == Lower(hosts[x]) + "." + Lower(d)
  }

  lemma UnderApexFound(g: Re, d: string, name: string) returns (m: nat)
    requires Found(Cat(Start, UnderApex(g, d)), name)
    ensures m + 1 + |d| == |name| && Matches(g, name, 0, m) && name[m] == '.' && ReadsAt(d, name, m + 1)
    ensures ZoneTail(name, d)
  {
    var i, j :| 0 <= i <= j <= |name| && Matches(Cat(Start, UnderApex(g, d)), name, i, j);
    var k := CatSplit(Start, UnderApex(g, d), name, i, j);
    m := UnderApexSplit(g, d, name, k, j);
  }

  lemma HostRead(capturing: bool, hosts: seq<string>, name: string, m: nat) returns (x: nat)
    requires |hosts| > 0 && AllNonEmpty(hosts)
    requires Matches(Group(capturing, Words(hosts)), name, 0, m)
    ensures x < |hosts| && m == |hosts[x]| && ReadsAt(hosts[x], name, 0)
  {
    WordsMatch(hosts, name, 0, m);
    x :| 0 <= x < |hosts| && m == 0 + |hosts[x]| && ReadsAt(hosts[x], name, 0);
  }

  lemma HostReads(capturing: bool, hosts: seq<string>, name: string, x: nat)
    requires |hosts| > 0 && AllNonEmpty(hosts)
    requires x < |hosts| && ReadsAt(hosts[x], name, 0)
    ensures Matches(Group(capturing, Words(hosts)), name, 0, |hosts[x]|)
  {
    WordsMatch(hosts, name, 0, |hosts[x]|);
  }

  lemma HostsFound(capturing: bool, hosts: seq<string>, d: string, name: string)
    requires |hosts| > 0 && AllNonEmpty(hosts) && |d| > 0
    requires Found(Cat(Start, UnderApex(Group(capturing, Words(hosts)), d)), name)
    ensures ZoneTail(name, d) && exists x :: ReadsHost(hosts, d, name, x)
  {
    var m := UnderApexFound(Group(capturing, Words(hosts)), d, name);
    var x := HostRead(capturing, hosts, name, m);
    HostNameReads(hosts[x], d, name);
    assert ReadsHost(hosts, d, name, x);
  }

  lemma HostFinds(capturing: bool, hosts: seq<string>, d: string, name: string, x: int)
    requires |hosts| > 0 && AllNonEmpty(hosts)
    requires ReadsHost(hosts, d, name, x)
    ensures Found(Cat(Start, UnderApex(Group(capturing, Words(hosts)), d)), name)
  {
    HostNameReads(hosts[x], d, name);
    HostReads(capturing, hosts, name, x);
    UnderApexJoin(Group(capturing, Words(hosts)), d, name, |hosts[x]|);
  }

  /** The meaning of a host alternation, apart from its text. */
  lemma HostReFound(shape: HostShape, name: string)
    requires shape.Hosts? && |shape.hosts| > 0 && AllNonEmpty(shape.hosts)
    requires |Join(shape.labels)| > 0
    ensures Found(HostRe(shape), name) <==> Lower(name) in HostNames(shape)
    ensures Found(HostRe(shape), name) ==> IsSubdomainOf(Lower(name), Lower(Join(shape.labels)))
  {
    var d := Join(shape.labels);
    if Found(HostRe(shape), name) {
      HostsFound(shape.capturing, shape.hosts, d, name);
      var x :| ReadsHost(shape.hosts, d, name, x);
      assert HostNames(shape)[x] == Lower(name);
      ZoneTailIff(name, d);
    }
    if Lower(name) in HostNames(shape) {
      var x :| 0 <= x < |shape.hosts| && HostNames(shape)[x] == Lower(name);
      HostFinds(shape.capturing, shape.hosts, d, name, x);
    }
  }

  // ---- label alternations ----------------------------------------------------------------------

  /** `^?(?:body)\.apex$` with at least two branches, for any body without parentheses. */
  datatype LabelShape = NoLabels | LabelAlternation(anchored: bool, body: string, labels: seq<string>)

  /** Branches that are not blank. */
  function BranchCount(body: string): nat
    decreases |body|
  {
    var n := FirstOf(body, '|');
    (if Trim(body[..n]) != "" then 1 else 0) + (if n == |body| then 0 else BranchCount(body[n + 1..]))
  }

  function LabelShapeOf(pattern: string): LabelShape {
    LabelShapeAt(Trim(pattern))
  }

  function LabelShapeAt(p: string): LabelShape {
    if |p| >= 1 && p[0] == '^' then LabelRest(true, p[1..]) else LabelRest(false, p)
  }

  function LabelRest(anchored: bool, s: string): LabelShape {
    if |s| < 3 || s[..3] != "(?:" then NoLabels else LabelBody(anchored, s[3..])
  }

  /** What follows the opening parenthesis. */
  function LabelBody(anchored: bool, inner: string): LabelShape {
    var n := FirstOf(inner, ')');
    if n == |inner| || n == 0 || '(' in inner[..n] || BranchCount(inner[..n]) < 2 then NoLabels
    else
      var labels := DottedTail(inner[n + 1..]);
      if labels == [] then NoLabels else LabelAlternation(anchored, inner[..n], labels)
  }

  /** The meaning of a body: which stretches of a name it matches. */
  type Spans = (string, int, int) -> bool

  function LabelRe(shape: LabelShape, spans: Spans): Re
    requires shape.LabelAlternation?
  {
    var r := UnderApex(Group(false, Given(shape.body, spans)), Join(shape.labels));
    if shape.anchored then Cat(Start, r) else r
  }

  lemma LabelBodyParts(anchored: bool, inner: string)
    requires LabelBody(anchored, inner).LabelAlternation?
    ensures var n := FirstOf(inner, ')');
            && n < |inner| && |DottedTail(inner[n + 1..])| > 0
            && LabelBody(anchored, inner) == LabelAlternation(anchored, inner[..n], DottedTail(inner[n + 1..]))
  {
  }

  lemma LabelBodyText(anchored: bool, inner: string, spans: Spans)
    requires LabelBody(anchored, inner).LabelAlternation?
    ensures var shape := LabelBody(anchored, inner);
            && shape.anchored == anchored && |Join(shape.labels)| > 0
            && Text(UnderApex(Group(false, Given(shape.body, spans)), Join(shape.labels))) == "(?:" + inner
  {
    var n := FirstOf(inner, ')');
    LabelBodyParts(anchored, inner);
    JoinNonEmpty(DottedTail(inner[n + 1..]));
    GroupTailText(false, Given(inner[..n], spans), inner, n);
  }

  lemma LabelRestText(anchored: bool, s: string, spans: Spans)
    requires LabelRest(anchored, s).LabelAlternation?
    ensures var shape := LabelRest(anchored, s);
            && shape.anchored == anchored && |Join(shape.labels)| > 0
            && Text(UnderApex(Group(false, Given(shape.body, spans)), Join(shape.labels))) == s
  {
    LabelBodyText(anchored, s[3..], spans);
    SplitPrefix(s, "(?:");
  }

  lemma AnchoredText(r: Re, p: string)
    requires |p| > 0 && p[0] == '^' && Text(r) == p[1..]
    ensures Text(Cat(Start, r)) == p
  {
    SplitHead(p);
  }

  lemma LabelTextAt(p: string, spans: Spans)
    requires LabelShapeAt(p).LabelAlternation?
    ensures Text(LabelRe(LabelShapeAt(p), spans)) == p && |Join(LabelShapeAt(p).labels)| > 0
  {
    var shape := LabelShapeAt(p);
    if |p| >= 1 && p[0] == '^' {
      LabelRestText(true, p[1..], spans);
      AnchoredText(UnderApex(Group(false, Given(shape.body, spans)), Join(shape.labels)), p);
    } else {
      LabelRestText(false, p, spans);
    }
  }

  lemma LabelPatternText(pattern: string, spans: Spans)
    requires LabelShapeOf(pattern).LabelAlternation?
    ensures Text(LabelRe(LabelShapeOf(pattern), spans)) == Trim(pattern)
    ensures |Join(LabelShapeOf(pattern).labels)| > 0
  {
    LabelTextAt(Trim(pattern), spans);
  }

  /** The body matches a stretch that ends right before the dot and the apex, from the start if the pattern says so. */
  ghost predicate BodyMeets(shape: LabelShape, spans: Spans, name: string)
    requires shape.LabelAlternation?
  {
    var m := |name| - |Join(shape.labels)| - 1;
    exists i :: 0 <= i <= m && (shape.anchored ==> i == 0) && spans(name, i, m)
  }

  /** For any body, counted repetitions and classes of every kind included, and whatever it matches: the pattern matches
      exactly the names that end in a dot and the apex and in which the body matches what stands before. All of them are
      below the apex. */
  lemma LabelExtractionExact(pattern: string, spans: Spans, name: string)
    requires LabelShapeOf(pattern).LabelAlternation?
    ensures var shape := LabelShapeOf(pattern);
            var apex := Lower(Join(shape.labels));
            && Text(LabelRe(shape, spans)) == Trim(pattern)
            && (Found(LabelRe(shape, spans), name) <==>
                EndsWith(Lower(name), "." + apex) && BodyMeets(shape, spans, name))
            && (Found(LabelRe(shape, spans), name) ==> IsSubdomainOf(Lower(name), apex))
  {
    var shape := LabelShapeOf(pattern);
    LabelPatternText(pattern, spans);
    if Found(LabelRe(shape, spans), name) {
      LabelReMeets(shape, spans, name);
      DottedEndIff(name, Join(shape.labels));
    }
    if EndsWith(Lower(name), "." + Lower(Join(shape.labels))) && BodyMeets(shape, spans, name) {
      DottedEndIff(name, Join(shape.labels));
      LabelReFinds(shape, spans, name);
    }
  }

  /** A dot and `d`, without case, at the end of the name. */
  ghost predicate DottedEnd(name: string, d: string) {
    var m := |name| - |d| - 1;
    m >= 0 && name[m] == '.' && ReadsAt(d, name, m + 1)
  }

  lemma DottedEndIff(name: string, d: string)
    requires |d| > 0
    ensures DottedEnd(name, d) <==> EndsWith(Lower(name), "." + Lower(d))
  {
    ZoneTailIff(name, d);
    assert |name| == |d| ==> !EndsWith(Lower(name), "." + Lower(d));
    assert |name| > |d| ==> Lower(name) != Lower(d);
  }

  lemma LabelReMeets(shape: LabelShape, spans: Spans, name: string)
    requires shape.LabelAlternation? && Found(LabelRe(shape, spans), name)
    ensures DottedEnd(name, Join(shape.labels)) && BodyMeets(shape, spans, name)
  {
    var g, d := Group(false, Given(shape.body, spans)), Join(shape.labels);
    var i, j :| 0 <= i <= j <= |name| && Matches(LabelRe(shape, spans), name, i, j);
    var k := i;
    if shape.anchored {
      k := CatSplit(Start, UnderApex(g, d), name, i, j);
      assert k == 0;
    }
    var m := UnderApexSplit(g, d, name, k, j);
    assert Matches(Given(shape.body, spans), name, k, m);
    assert spans(name, k, |name| - |Join(shape.labels)| - 1);
  }

  lemma LabelReFinds(shape: LabelShape, spans: Spans, name: string)
    requires shape.LabelAlternation? && DottedEnd(name, Join(shape.labels)) && BodyMeets(shape, spans, name)
    ensures Found(LabelRe(shape, spans), name)
  {
    var g, d := Group(false, Given(shape.body, spans)), Join(shape.labels);
    var m := |name| - |d| - 1;
    var i :| 0 <= i <= m && (shape.anchored ==> i == 0) && spans(name, i, m);
    assert Matches(Given(shape.body, spans), name, i, m);
    assert Matches(g, name, i, m);
    if shape.anchored {
      UnderApexJoin(g, d, name, m);
    } else {
      UnderApexMatches(g, d, name, i, m);
    }
  }

  // ---- the texts bind as written -----------------------------------------------------------------

  lemma {:induction false} LiteralBinds(d: string, tail: Re)
    requires BindsAsWritten(tail) && !IsLoose(tail)
    ensures BindsAsWritten(Literal(d, tail)) && !IsLoose(Literal(d, tail))
  {
    if |d| > 0 {
      LiteralBinds(d[1..], tail);
    }
  }

  lemma {:induction false} WordBinds(h: string)
    requires |h| > 0
    ensures BindsAsWritten(Word(h)) && !IsLoose(Word(h))
  {
    if |h| > 1 {
      WordBinds(h[1..]);
    }
  }

  lemma {:induction false} WordsBind(hosts: seq<string>)
    requires |hosts| > 0 && AllNonEmpty(hosts)
    ensures BindsAsWritten(Words(hosts)) && !Words(hosts).Given?
  {
    WordBinds(hosts[0]);
    if |hosts| > 1 {
      WordsBind(hosts[1..]);
    }
  }

  lemma UnderApexBinds(g: Re, d: string)
    requires g.Group? && BindsAsWritten(g)
    ensures BindsAsWritten(UnderApex(g, d)) && BindsAsWritten(Cat(Start, UnderApex(g, d)))
  {
    LiteralBinds(d, End);
  }

  lemma CatBinds(a: Re, b: Re)
    requires BindsAsWritten(a) && BindsAsWritten(b) && !IsLoose(a) && !IsLoose(b)
    ensures BindsAsWritten(Cat(a, b))
  {
  }

  lemma RepeatBinds(r: Re, q: Quantifier)
    requires BindsAsWritten(r) && (r.Group? || r.Class? || r.Any?)
    ensures BindsAsWritten(Repeat(r, q))
  {
  }

  lemma PrefixBinds(r: Re, q: Quantifier, d: string)
    requires r.Group? && BindsAsWritten(r)
    ensures BindsAsWritten(Cat(Start, Cat(Repeat(r, q), Literal(d, End))))
  {
    LiteralBinds(d, End);
    RepeatBinds(r, q);
    CatBinds(Repeat(r, q), Literal(d, End));
    CatBinds(Start, Cat(Repeat(r, q), Literal(d, End)));
  }

  lemma DotBinds(r: Re, q: Quantifier)
    requires r.Class? || r.Any?
    ensures BindsAsWritten(Group(true, Cat(Repeat(r, q), Chr('.'))))
  {
    RepeatBinds(r, q);
    CatBinds(Repeat(r, q), Chr('.'));
  }

  lemma ZoneBinds(prefix: Prefix, d: string)
    ensures BindsAsWritten(ZoneRe(prefix, d))
  {
    match prefix
    case Labels(k, q) =>
      DotBinds(Class(k), OneOrMore);
      PrefixBinds(LabelDot(k), q, d);
    case AnyDot(q) =>
      DotBinds(Any, ZeroOrMore);
      PrefixBinds(DotDot(), q, d);
    case Boundary(capturing, dotFirst) =>
      LiteralBinds(d, End);
      assert BindsAsWritten(if dotFirst then Alt(Chr('.'), Start) else Alt(Start, Chr('.')));
      CatBinds(BoundaryRe(capturing, dotFirst), Literal(d, End));
  }

  /** In the text of every expression the extractors lead to, the parts bind as in the expression. */
  lemma ExtractedBindAsWritten(prefix: Prefix, d: string, hosts: HostShape, labels: LabelShape, spans: Spans)
    requires hosts.Hosts? && |hosts.hosts| > 0 && AllNonEmpty(hosts.hosts) && labels.LabelAlternation?
    ensures BindsAsWritten(ZoneRe(prefix, d)) && BindsAsWritten(ApexRe(d))
    ensures BindsAsWritten(HostRe(hosts)) && BindsAsWritten(LabelRe(labels, spans))
  {
    ZoneBinds(prefix, d);
    LiteralBinds(d, End);
    WordsBind(hosts.hosts);
    UnderApexBinds(Group(hosts.capturing, Words(hosts.hosts)), Join(hosts.labels));
    UnderApexBinds(Group(false, Given(labels.body, spans)), Join(labels.labels));
  }
}
