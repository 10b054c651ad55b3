/** Which pattern texts the extractors accept: exactly the documented forms around a domain. */
module RuleAcceptance {
  import opened Strings
  import opened Sequences
  import opened Regex
  import opened RuleOptimizer
  import opened RuleZones
  import opened RuleExact
  import opened RuleHosts

  // ---- labels ------------------------------------------------------------------------------------------

  /** A letter, a digit or a hyphen. */
  predicate IsHostChar(c: char) {
    'a' <= c <= 'z' || 'A' <= c <= 'Z' || '0' <= c <= '9' || c == '-'
  }

  predicate IsLabel(s: string) {
    |s| > 0 && forall i :: 0 <= i < |s| ==> IsHostChar(s[i])
  }

  predicate AreLabels(labels: seq<string>) {
    forall i :: 0 <= i < |labels| ==> IsLabel(labels[i])
  }

  lemma {:induction false} EscapedLabelsAreLabels(s: string)
    ensures AreLabels(EscapedLabels(s))
  {
    var n := LabelPrefix(s);
    if |EscapedLabels(s)| > 0 && n < |s| {
      EscapedLabelsCons(s);
      EscapedLabelsAreLabels(s[n + 2..]);
    }
  }

  lemma {:induction false} BarLabelsAreLabels(s: string)
    ensures AreLabels(BarLabels(s))
  {
    var n := LabelPrefix(s);
    if |BarLabels(s)| > 0 && n < |s| {
      BarLabelsCons(s);
      BarLabelsAreLabels(s[n + 1..]);
    }
  }

  predicate NoHyphenEnds(s: string) {
    |s| > 0 ==> s[0] != '-' && s[|s| - 1] != '-'
  }

  /** At least two labels of at most 63 letters, digits and inner hyphens, together at most 253 characters. */
  predicate IsDomain(labels: seq<string>) {
    && |labels| >= 2 && |Join(labels)| <= 253 && AreLabels(labels)
    && forall i :: 0 <= i < |labels| ==> |labels[i]| <= 63 && NoHyphenEnds(labels[i])
  }

  lemma IsDomainIff(labels: seq<string>)
    requires AreLabels(labels)
    ensures |labels| >= 2 && LooksLikeDomain(labels) <==> IsDomain(labels)
  {
    if |labels| >= 2 {
      JoinIsLonger(labels);
      assert IsLabel(labels[0]);
    }
  }

  lemma JoinIsLonger(labels: seq<string>)
    requires |labels| >= 2
    ensures |Join(labels)| > |labels[0]|
  {
  }

  lemma LabelPrefixOf(h: string, rest: string)
    requires IsLabel(h) && (|rest| > 0 ==> !IsLabelChar(rest[0]))
    ensures LabelPrefix(h + rest) == |h|
  {
    var s := h + rest;
    assert forall i :: 0 <= i < |h| ==> s[i] == h[i] && IsLabelChar(s[i]);
    assert |rest| > 0 ==> s[|h|] == rest[0];
  }

  lemma EscapedLabelsMore(h: string, rest: string)
    requires IsLabel(h)
    ensures EscapedLabels(h + ("\\." + rest)) ==
            if EscapedLabels(rest) == [] then [] else [h] + EscapedLabels(rest)
  {
    var s := h + ("\\." + rest);
    LabelPrefixOf(h, "\\." + rest);
    assert s[..|h|] == h && s[|h| + 2..] == rest;
    assert s[|h|] == '\\' && s[|h| + 1] == '.';
  }

  /** Labels are read back from their escaped text. */
  lemma {:induction false} LabelsReadBack(labels: seq<string>)
    requires |labels| > 0 && AreLabels(labels)
    ensures EscapedLabels(Escape(Join(labels))) == labels
  {
    var h := labels[0];
    assert IsLabel(h);
    EscapeLabel(h);
    if |labels| == 1 {
      LabelPrefixOf(h, "");
      assert h + "" == h;
    } else {
      LabelsReadBack(labels[1..]);
      EscapeCons(h, Join(labels[1..]));
      EscapedLabelsMore(h, Escape(Join(labels[1..])));
      assert labels == [h] + labels[1..];
    }
  }

  predicate IsLabelText(c: char) {
    IsLabelChar(c) || c == '\\' || c == '.'
  }

  lemma LabelTextStep(s: string, n: nat)
    requires n + 1 < |s| && s[n] == '\\' && s[n + 1] == '.' && forall i :: 0 <= i < n ==> IsLabelChar(s[i])
    requires forall c :: c in s[n + 2..] ==> IsLabelText(c)
    ensures forall c :: c in s ==> IsLabelText(c)
  {
    forall c | c in s ensures IsLabelText(c) {
      var i :| 0 <= i < |s| && s[i] == c;
      assert i >= n + 2 ==> s[n + 2..][i - n - 2] == c;
    }
  }

  /** A text with any other character has no labels. */
  lemma {:induction false} OnlyLabelText(s: string)
    requires |EscapedLabels(s)| > 0
    ensures forall c :: c in s ==> IsLabelText(c)
  {
    var n := LabelPrefix(s);
    if n < |s| {
      EscapedLabelsCons(s);
      OnlyLabelText(s[n + 2..]);
      LabelTextStep(s, n);
    }
  }

  // ---- zones -------------------------------------------------------------------------------------------

  lemma OtherText(s: string, k: nat, n: nat)
    requires k <= n < |s| && !IsLabelText(s[n])
    ensures |EscapedLabels(s[k..])| == 0
  {
    assert s[k..][n - k] == s[n] && s[n] in s[k..];
    if |EscapedLabels(s[k..])| > 0 {
      OnlyLabelText(s[k..]);
    }
  }

  /** After a prefix that ends in another character the tail starts right behind it. */
  lemma TailAfter(prefix: string, tail: string)
    requires |prefix| > 0 && !IsLabelText(prefix[|prefix| - 1]) && |EscapedLabels(tail)| >= 2
    ensures TailStart(prefix + tail, 0) == |prefix|
  {
    var s := prefix + tail;
    assert s[|prefix|..] == tail && s[|prefix| - 1] == prefix[|prefix| - 1];
    var start := TailStart(s, 0);
    if start < |prefix| {
      OtherText(s, start, |prefix| - 1);
    }
  }

  lemma LabelsPrefixFound(k: ClassKind, q: Quantifier)
    requires !q.ZeroOrOne?
    ensures FindPrefix(PrefixText(Labels(k, q))) == [Labels(k, q)]
  {
    HostText();
    RuleOptimizer.WordText();
    WordHyphenText();
  }

  /** The table lists the text of each of its prefixes. */
  lemma PrefixFound(prefix: Prefix)
    requires TableQuantifier(prefix)
    ensures FindPrefix(PrefixText(prefix)) == [prefix]
  {
    match prefix
    case Labels(k, q) => LabelsPrefixFound(k, q);
    case AnyDot(q) => AnyDotText();
    case Boundary(_, _) => BoundaryText();
  }

  lemma FoundIsInTable(text: string)
    requires |FindPrefix(text)| > 0
    ensures TableQuantifier(FindPrefix(text)[0])
  {
  }

  lemma PrefixEnd(prefix: Prefix)
    ensures var text := PrefixText(prefix); |text| > 0 && !IsLabelText(text[|text| - 1])
  {
  }

  lemma ZoneShapeParts(p: string, body: string, start: nat)
    requires |p| > 0 && p[|p| - 1] == '$' && body == p[..|p| - 1] && start == TailStart(body, 0) < |body|
    requires LooksLikeDomain(EscapedLabels(body[start..])) && |FindPrefix(body[..start])| > 0
    ensures ZoneShapeAt(p) == Zone(FindPrefix(body[..start])[0], EscapedLabels(body[start..]))
  {
  }

  lemma ZoneText(text: string, tail: string)
    ensures var p := text + (tail + "$");
            && p[|p| - 1] == '$' && p[..|p| - 1] == text + tail
            && (text + tail)[..|text|] == text && (text + tail)[|text|..] == tail
  {
  }

  lemma ZoneIsAccepted(p: string, prefix: Prefix, labels: seq<string>)
    requires TableQuantifier(prefix) && IsDomain(labels)
    requires p == PrefixText(prefix) + (Escape(Join(labels)) + "$")
    ensures ZoneShapeAt(p) == Zone(prefix, labels)
  {
    var text, tail := PrefixText(prefix), Escape(Join(labels));
    LabelsReadBack(labels);
    PrefixEnd(prefix);
    PrefixFound(prefix);
    IsDomainIff(labels);
    TailAfter(text, tail);
    ZoneText(text, tail);
    ZoneShapeParts(p, text + tail, |text|);
  }

  lemma AcceptedIsZone(p: string)
    requires ZoneShapeAt(p).Zone?
    ensures var Zone(prefix, labels) := ZoneShapeAt(p);
            TableQuantifier(prefix) && IsDomain(labels) && p == PrefixText(prefix) + (Escape(Join(labels)) + "$")
  {
    var body := p[..|p| - 1];
    var start := TailStart(body, 0);
    FoundIsInTable(body[..start]);
    FoundPrefixText(body[..start]);
    EscapeJoined(body[start..]);
    EscapedLabelsAreLabels(body[start..]);
    IsDomainIff(EscapedLabels(body[start..]));
    Reassemble(p, start);
  }

  /** The zone extractor accepts exactly the listed prefixes before an escaped domain and `$`. */
  lemma ZoneAcceptedIff(pattern: string, prefix: Prefix, labels: seq<string>)
    ensures ZoneShapeOf(pattern) == Zone(prefix, labels) <==>
            && TableQuantifier(prefix) && IsDomain(labels)
            && Trim(pattern) == PrefixText(prefix) + (Escape(Join(labels)) + "$")
  {
    var p := Trim(pattern);
    if TableQuantifier(prefix) && IsDomain(labels) && p == PrefixText(prefix) + (Escape(Join(labels)) + "$") {
      ZoneIsAccepted(p, prefix, labels);
    }
    if ZoneShapeAt(p) == Zone(prefix, labels) {
      AcceptedIsZone(p);
    }
  }

  // ---- apex ----------------------------------------------------------------------------------------------

  /** A text that reads as a domain's labels is that domain, escaped. */
  lemma DomainText(tail: string)
    requires |EscapedLabels(tail)| >= 2 && LooksLikeDomain(EscapedLabels(tail))
    ensures IsDomain(EscapedLabels(tail)) && Escape(Join(EscapedLabels(tail))) == tail
  {
    EscapeJoined(tail);
    EscapedLabelsAreLabels(tail);
    IsDomainIff(EscapedLabels(tail));
  }

  lemma ApexParts(pattern: string)
    requires |ApexLabels(pattern)| > 0
    ensures var p := Trim(pattern);
            && |p| >= 2 && p == "^" + (p[1..|p| - 1] + "$") && ApexLabels(pattern) == EscapedLabels(p[1..|p| - 1])
            && |ApexLabels(pattern)| >= 2 && LooksLikeDomain(ApexLabels(pattern))
  {
  }

  lemma ApexLabelsFrom(pattern: string, tail: string)
    requires Trim(pattern) == "^" + (tail + "$")
    ensures ApexLabels(pattern) == if |EscapedLabels(tail)| >= 2 && LooksLikeDomain(EscapedLabels(tail)) then EscapedLabels(tail)
                                   else []
  {
    var p := Trim(pattern);
    assert p[1..|p| - 1] == tail && p[0] == '^' && p[|p| - 1] == '$';
  }

  lemma AcceptedIsApex(pattern: string)
    requires |ApexLabels(pattern)| > 0
    ensures var labels := ApexLabels(pattern);
            IsDomain(labels) && Trim(pattern) == "^" + (Escape(Join(labels)) + "$")
  {
    ApexParts(pattern);
    DomainText(Trim(pattern)[1..|Trim(pattern)| - 1]);
  }

  /** The apex extractor accepts exactly an escaped domain between `^` and `$`. */
  lemma ApexAcceptedIff(pattern: string, labels: seq<string>)
    requires |labels| > 0
    ensures ApexLabels(pattern) == labels <==>
            IsDomain(labels) && Trim(pattern) == "^" + (Escape(Join(labels)) + "$")
  {
    if IsDomain(labels) && Trim(pattern) == "^" + (Escape(Join(labels)) + "$") {
      ApexLabelsFrom(pattern, Escape(Join(labels)));
      LabelsReadBack(labels);
      IsDomainIff(labels);
    }
    if ApexLabels(pattern) == labels {
      AcceptedIsApex(pattern);
    }
  }

  // ---- what stands before a dotted domain ------------------------------------------------------------------

  function Dotted(labels: seq<string>): string {
    "\\." + (Escape(Join(labels)) + "$")
  }

  lemma DottedTailIff(s: string, labels: seq<string>)
    requires |labels| > 0
    ensures DottedTail(s) == labels <==> IsDomain(labels) && s == Dotted(labels)
  {
    if IsDomain(labels) && s == Dotted(labels) {
      LabelsReadBack(labels);
      IsDomainIff(labels);
      assert s[2..|s| - 1] == Escape(Join(labels)) && s[..2] == "\\.";
      assert |Escape(Join(labels))| > 0;
    }
    if DottedTail(s) == labels {
      DottedTailText(s);
      EscapedLabelsAreLabels(s[2..|s| - 1]);
      IsDomainIff(labels);
    }
  }

  /** A group's text up to the first closing parenthesis, and what follows. */
  lemma GroupParts(body: string, tail: string)
    requires ')' !in body
    ensures var inner := body + ")" + tail;
            FirstOf(inner, ')') == |body| && inner[..|body|] == body && inner[|body| + 1..] == tail
  {
    FirstOfConcat(body, ')', tail);
  }

  // ---- hosts ---------------------------------------------------------------------------------------------

  lemma BarLabelsMore(h: string, rest: string)
    requires IsLabel(h)
    ensures BarLabels(h + ("|" + rest)) == if BarLabels(rest) == [] then [] else [h] + BarLabels(rest)
  {
    var s := h + ("|" + rest);
    LabelPrefixOf(h, "|" + rest);
    assert s[..|h|] == h && s[|h| + 1..] == rest && s[|h|] == '|';
  }

  lemma {:induction false} HostsReadBack(hosts: seq<string>)
    requires |hosts| > 0 && AreLabels(hosts)
    ensures BarLabels(JoinBar(hosts)) == hosts && ')' !in JoinBar(hosts)
  {
    var h := hosts[0];
    assert IsLabel(h);
    if |hosts| == 1 {
      LabelPrefixOf(h, "");
      assert h + "" == h;
    } else {
      HostsReadBack(hosts[1..]);
      BarLabelsMore(h, JoinBar(hosts[1..]));
      assert hosts == [h] + hosts[1..];
    }
  }

  lemma {:induction false} JoinedHosts(s: string)
    requires |BarLabels(s)| > 0
    ensures JoinBar(BarLabels(s)) == s
  {
    var n := LabelPrefix(s);
    if n < |s| {
      BarLabelsCons(s);
      JoinedHosts(s[n + 1..]);
      SplitAround(s, n);
    }
  }

  predicate AreHosts(hosts: seq<string>) {
    |hosts| >= 2 && AreLabels(hosts) && forall i :: 0 <= i < |hosts| ==> NoHyphenEnds(hosts[i])
  }

  lemma AreHostsIff(hosts: seq<string>)
    requires AreLabels(hosts)
    ensures |hosts| >= 2 && !(exists i | 0 <= i < |hosts| :: !HostOk(hosts[i])) <==> AreHosts(hosts)
  {
    forall i | 0 <= i < |hosts| ensures HostOk(hosts[i]) <==> NoHyphenEnds(hosts[i]) {
      assert IsLabel(hosts[i]);
    }
  }

  lemma HostTailFrom(capturing: bool, body: string, tail: string)
    requires ')' !in body
    ensures HostTail(capturing, body + ")" + tail) ==
            var hosts, labels := BarLabels(body), DottedTail(tail);
            if |hosts| < 2 || labels == [] || exists i | 0 <= i < |hosts| :: !HostOk(hosts[i]) then NoHosts
            else Hosts(capturing, hosts, labels)
  {
    GroupParts(body, tail);
  }

  lemma AcceptedAreHosts(capturing: bool, inner: string)
    requires HostTail(capturing, inner).Hosts?
    ensures var shape := HostTail(capturing, inner);
            && shape.capturing == capturing && AreHosts(shape.hosts) && IsDomain(shape.labels)
            && inner == JoinBar(shape.hosts) + ")" + Dotted(shape.labels)
  {
    var n := FirstOf(inner, ')');
    HostTailParts(capturing, inner);
    BarLabelsAreLabels(inner[..n]);
    AreHostsIff(BarLabels(inner[..n]));
    JoinedHosts(inner[..n]);
    DottedTailIff(inner[n + 1..], DottedTail(inner[n + 1..]));
    assert inner == inner[..n] + ")" + inner[n + 1..];
  }

  lemma HostTailIff(capturing: bool, inner: string, hosts: seq<string>, labels: seq<string>)
    ensures HostTail(capturing, inner) == Hosts(capturing, hosts, labels) <==>
            AreHosts(hosts) && IsDomain(labels) && inner == JoinBar(hosts) + ")" + Dotted(labels)
  {
    if AreHosts(hosts) && IsDomain(labels) && inner == JoinBar(hosts) + ")" + Dotted(labels) {
      HostsReadBack(hosts);
      AreHostsIff(hosts);
      DottedTailIff(Dotted(labels), labels);
      HostTailFrom(capturing, JoinBar(hosts), Dotted(labels));
    }
    if HostTail(capturing, inner) == Hosts(capturing, hosts, labels) {
      AcceptedAreHosts(capturing, inner);
    }
  }

  lemma HostsStart(hosts: seq<string>)
    requires AreHosts(hosts)
    ensures |JoinBar(hosts)| >= 2 && JoinBar(hosts)[0] != '?'
  {
    assert IsLabel(hosts[0]);
    assert JoinBar(hosts)[0] == hosts[0][0];
  }

  lemma GroupedText(capturing: bool, hosts: seq<string>, rest: string)
    requires AreHosts(hosts)
    ensures var p := "^" + ((if capturing then "(" else "(?:") + (JoinBar(hosts) + rest));
            && |p| >= 4 && p[..2] == "^(" && (p[..4] == "^(?:" <==> !capturing)
            && p[if capturing then 2 else 4..] == JoinBar(hosts) + rest
  {
    HostsStart(hosts);
    var p := "^" + ((if capturing then "(" else "(?:") + (JoinBar(hosts) + rest));
    if capturing {
      assert p[2] == JoinBar(hosts)[0] && p[..4][2] == p[2];
    } else {
      assert p[..4] == "^(?:";
    }
  }

  /** The host extractor, as far as it looks for parentheses, accepts exactly two or more labels without hyphens at their
      ends, in a group that captures or not, before a dot and an escaped domain. */
  lemma HostsAcceptedIff(pattern: string, capturing: bool, hosts: seq<string>, labels: seq<string>)
    ensures HostShapeOf(pattern) == Hosts(capturing, hosts, labels) <==>
            && AreHosts(hosts) && IsDomain(labels)
            && Trim(pattern) == "^" + ((if capturing then "(" else "(?:") + (JoinBar(hosts) + (")" + Dotted(labels))))
  {
    var p := Trim(pattern);
    assert JoinBar(hosts) + ")" + Dotted(labels) == JoinBar(hosts) + (")" + Dotted(labels));
    HostTailIff(capturing, JoinBar(hosts) + (")" + Dotted(labels)), hosts, labels);
    if AreHosts(hosts) && p == "^" + ((if capturing then "(" else "(?:") + (JoinBar(hosts) + (")" + Dotted(labels)))) {
      GroupedText(capturing, hosts, ")" + Dotted(labels));
    }
    if HostShapeAt(p) == Hosts(capturing, hosts, labels) {
      HostPrefix(p);
      if |p| >= 4 && p[..4] == "^(?:" {
        AcceptedAreHosts(false, p[4..]);
      } else {
        AcceptedAreHosts(true, p[2..]);
      }
    }
  }

  // ---- label alternations ----------------------------------------------------------------------------------

  predicate IsBranch(part: string) {
    Trim(part) != ""
  }

  ghost predicate OneOf(parts: seq<string>, good: string -> bool) {
    exists i :: 0 <= i < |parts| && good(parts[i])
  }

  ghost predicate TwoOf(parts: seq<string>, good: string -> bool) {
    exists i, j :: 0 <= i < j < |parts| && good(parts[i]) && good(parts[j])
  }

  lemma OneOfCons(first: string, rest: seq<string>, good: string -> bool)
    ensures OneOf([first] + rest, good) <==> good(first) || OneOf(rest, good)
  {
    var parts := [first] + rest;
    if good(first) {
      assert good(parts[0]);
    }
    if i :| 0 <= i < |rest| && good(rest[i]) {
      assert good(parts[i + 1]);
    }
    if i :| 0 <= i < |parts| && good(parts[i]) {
      assert i > 0 ==> good(rest[i - 1]);
    }
  }

  lemma TwoOfCons(first: string, rest: seq<string>, good: string -> bool)
    ensures TwoOf([first] + rest, good) <==> TwoOf(rest, good) || (good(first) && OneOf(rest, good))
  {
    var parts := [first] + rest;
    if i, j :| 0 <= i < j < |rest| && good(rest[i]) && good(rest[j]) {
      assert good(parts[i + 1]) && good(parts[j + 1]);
    }
    if good(first) && OneOf(rest, good) {
      var i :| 0 <= i < |rest| && good(rest[i]);
      assert good(parts[0]) && good(parts[i + 1]);
    }
    if i, j :| 0 <= i < j < |parts| && good(parts[i]) && good(parts[j]) {
      assert good(rest[j - 1]) && (i > 0 ==> good(rest[i - 1]));
    }
  }

  lemma SplitStep(s: string, c: char)
    ensures var n := FirstOf(s, c);
            Split(s, c) == [s[..n]] + if n == |s| then [] else Split(s[n + 1..], c)
  {
    assert s[..|s|] == s;
  }

  lemma {:induction false} BranchCountIff(body: string)
    ensures BranchCount(body) >= 1 <==> OneOf(Split(body, '|'), IsBranch)
    ensures BranchCount(body) >= 2 <==> TwoOf(Split(body, '|'), IsBranch)
    decreases |body|
  {
    var n := FirstOf(body, '|');
    var rest := if n == |body| then [] else Split(body[n + 1..], '|');
    if n < |body| {
      BranchCountIff(body[n + 1..]);
    }
    SplitStep(body, '|');
    OneOfCons(body[..n], rest, IsBranch);
    TwoOfCons(body[..n], rest, IsBranch);
  }

  /** At least two parts of the body are not blank. */
  ghost predicate HasBranches(body: string) {
    TwoOf(Split(body, '|'), IsBranch)
  }

  predicate IsBody(body: string) {
    |body| > 0 && '(' !in body && ')' !in body
  }

  lemma LabelBodyFrom(anchored: bool, body: string, tail: string)
    requires ')' !in body
    ensures LabelBody(anchored, body + ")" + tail) ==
            if |body| == 0 || '(' in body || BranchCount(body) < 2 || DottedTail(tail) == [] then NoLabels
            else LabelAlternation(anchored, body, DottedTail(tail))
  {
    GroupParts(body, tail);
  }

  lemma BeforeParenthesis(inner: string)
    ensures ')' !in inner[..FirstOf(inner, ')')]
  {
  }

  lemma AcceptedBody(anchored: bool, inner: string)
    requires LabelBody(anchored, inner).LabelAlternation?
    ensures var n := FirstOf(inner, ')'); n > 0 && '(' !in inner[..n] && BranchCount(inner[..n]) >= 2
  {
  }

  lemma DottedDomain(s: string)
    requires |DottedTail(s)| > 0
    ensures IsDomain(DottedTail(s)) && s == Dotted(DottedTail(s))
  {
    DottedTailIff(s, DottedTail(s));
  }

  lemma AcceptedTail(anchored: bool, inner: string)
    requires LabelBody(anchored, inner).LabelAlternation?
    ensures var n, shape := FirstOf(inner, ')'), LabelBody(anchored, inner);
            && n < |inner| && shape == LabelAlternation(anchored, inner[..n], shape.labels)
            && IsDomain(shape.labels) && inner[n + 1..] == Dotted(shape.labels)
  {
    LabelBodyParts(anchored, inner);
    DottedDomain(inner[FirstOf(inner, ')') + 1..]);
  }

  lemma CountedBranches(body: string)
    requires BranchCount(body) >= 2
    ensures HasBranches(body) && |body| > 0
  {
    BranchCountIff(body);
  }

  lemma Reassembled(inner: string, n: nat)
    requires n < |inner| && inner[n] == ')'
    ensures inner == inner[..n] + ")" + inner[n + 1..]
  {
  }

  lemma AcceptedIsBody(anchored: bool, inner: string)
    requires LabelBody(anchored, inner).LabelAlternation?
    ensures var shape := LabelBody(anchored, inner);
            && shape.anchored == anchored && IsBody(shape.body) && HasBranches(shape.body)
            && IsDomain(shape.labels) && inner == shape.body + ")" + Dotted(shape.labels)
  {
    var n := FirstOf(inner, ')');
    AcceptedTail(anchored, inner);
    AcceptedBody(anchored, inner);
    BeforeParenthesis(inner);
    CountedBranches(inner[..n]);
    Reassembled(inner, n);
  }

  lemma BodyIsAccepted(anchored: bool, body: string, labels: seq<string>)
    requires IsBody(body) && HasBranches(body) && IsDomain(labels)
    ensures LabelBody(anchored, body + ")" + Dotted(labels)) == LabelAlternation(anchored, body, labels)
  {
    BranchCountIff(body);
    DottedTailIff(Dotted(labels), labels);
    LabelBodyFrom(anchored, body, Dotted(labels));
  }

  lemma LabelRestFrom(anchored: bool, inner: string)
    ensures LabelRest(anchored, "(?:" + inner) == LabelBody(anchored, inner)
  {
    var s := "(?:" + inner;
    assert s[..3] == "(?:" && s[3..] == inner;
  }

  lemma LabelShapeFrom(anchored: bool, inner: string)
    ensures LabelShapeAt((if anchored then "^" else "") + ("(?:" + inner)) == LabelBody(anchored, inner)
  {
    var p := (if anchored then "^" else "") + ("(?:" + inner);
    LabelRestFrom(anchored, inner);
    if anchored {
      assert p[1..] == "(?:" + inner;
    } else {
      assert p == "(?:" + inner && p[0] == '(';
    }
  }

  lemma AcceptedLabelText(p: string) returns (anchored: bool, inner: string)
    requires LabelShapeAt(p).LabelAlternation?
    ensures p == (if anchored then "^" else "") + ("(?:" + inner)
  {
    anchored := |p| >= 1 && p[0] == '^';
    var s := if anchored then p[1..] else p;
    inner := s[3..];
    SplitPrefix(s, "(?:");
    if anchored {
      SplitHead(p);
    } else {
      assert "" + p == p;
    }
  }

  /** The label extractor accepts exactly a non-capturing group, anchored or not, before a dot and an escaped domain, whose
      body holds no parentheses and at least two branches that are not blank. */
  lemma LabelsAcceptedIff(pattern: string, anchored: bool, body: string, labels: seq<string>)
    ensures LabelShapeOf(pattern) == LabelAlternation(anchored, body, labels) <==>
            && IsBody(body) && HasBranches(body) && IsDomain(labels)
            && Trim(pattern) == (if anchored then "^" else "") + ("(?:" + (body + ")" + Dotted(labels)))
  {
    var p := Trim(pattern);
    if && IsBody(body) && HasBranches(body) && IsDomain(labels)
       && p == (if anchored then "^" else "") + ("(?:" + (body + ")" + Dotted(labels)))
    {
      BodyIsAccepted(anchored, body, labels);
      LabelShapeFrom(anchored, body + ")" + Dotted(labels));
    }
    if LabelShapeAt(p) == LabelAlternation(anchored, body, labels) {
      var a, inner := AcceptedLabelText(p);
      LabelShapeFrom(a, inner);
      AcceptedIsBody(a, inner);
    }
  }
}
