/** The optimizer's extractors: which regex texts they recognise, and the zone or host entries they propose. */
module RuleOptimizer {
  import opened Strings
  import opened Regex

  // ---- names and zones -------------------------------------------------------------------------

  predicate EndsWith(s: string, suffix: string) {
    |s| >= |suffix| && s[|s| - |suffix|..] == suffix
  }

  /** Zone semantics of a plain domain entry: the name itself or anything below it. */
  predicate IsSubdomainOf(name: string, zone: string) {
    name != "" && zone != "" && (name == zone || EndsWith(name, "." + zone))
  }

  // ---- text helpers ----------------------------------------------------------------------------

  /** `[a-z0-9-]`, without case. */
  predicate IsLabelChar(c: char) {
    IsAlnum(c) || c == '-'
  }

  function LabelPrefix(s: string): (n: nat)
    ensures n <= |s| && forall i :: 0 <= i < n ==> IsLabelChar(s[i])
    ensures n < |s| ==> !IsLabelChar(s[n])
  {
    if s == [] || !IsLabelChar(s[0]) then 0 else 1 + LabelPrefix(s[1..])
  }

  /** The labels of `label(\.label)*`, or nothing if `s` does not have that form. */
  function EscapedLabels(s: string): seq<string> {
    var n := LabelPrefix(s);
    if n == 0 then []
    else if n == |s| then [s]
    else if n + 1 < |s| && s[n] == '\\' && s[n + 1] == '.' then
      var rest := EscapedLabels(s[n + 2..]);
      if rest == [] then [] else [s[..n]] + rest
    else []
  }

  function Join(labels: seq<string>): string {
    if labels == [] then ""
    else if |labels| == 1 then labels[0]
    else labels[0] + "." + Join(labels[1..])
  }

  /** Lengths, hyphens and the number of labels; the alphabet is already guaranteed by the labels themselves. */
  predicate LooksLikeDomain(labels: seq<string>) {
    && 1 <= |Join(labels)| <= 253
    && |labels| >= 2
    && forall i | 0 <= i < |labels| :: 1 <= |labels[i]| <= 63 && labels[i][0] != '-' && labels[i][|labels[i]| - 1] != '-'
  }

  // ---- the zone extractor ----------------------------------------------------------------------

  /** The accepted "any subdomain" prefixes. */
  datatype Prefix =
    | Labels(kind: ClassKind, q: Quantifier)
    | AnyDot(q: Quantifier)
    | Boundary(capturing: bool, dotFirst: bool)

  /** The list of literal prefixes. */
  function FindPrefix(text: string): (r: seq<Prefix>)
    ensures |r| <= 1
  {
    if text == "^([a-z0-9-]+\\.)*" then [Labels(Host, ZeroOrMore)]
    else if text == "^([a-z0-9-]+\\.)+" then [Labels(Host, OneOrMore)]
    else if text == "^(.*\\.)?" then [AnyDot(ZeroOrOne)]
    else if text == "^(.*\\.)*" then [AnyDot(ZeroOrMore)]
    else if text == "^(\\w+\\.)*" then [Labels(Word, ZeroOrMore)]
    else if text == "^(\\w+\\.)+" then [Labels(Word, OneOrMore)]
    else if text == "^([\\w-]+\\.)*" then [Labels(WordHyphen, ZeroOrMore)]
    else if text == "^([\\w-]+\\.)+" then [Labels(WordHyphen, OneOrMore)]
    else if text == "(\\.|^)" then [Boundary(true, true)]
    else if text == "(?:\\.|^)" then [Boundary(false, true)]
    else if text == "(^|\\.)" then [Boundary(true, false)]
    else if text == "(?:^|\\.)" then [Boundary(false, false)]
    else []
  }

  /** Leftmost start, from `i` on, of a tail `label(\.label)+` that runs to the end of `s`; |s| if there is none. */
  function TailStart(s: string, i: nat): (r: nat)
    requires i <= |s|
    ensures i <= r <= |s|
    ensures r < |s| ==> |EscapedLabels(s[r..])| >= 2
    ensures forall k :: i <= k < r ==> |EscapedLabels(s[k..])| < 2
    decreases |s| - i
  {
    if i == |s| then i else if |EscapedLabels(s[i..])| >= 2 then i else TailStart(s, i + 1)
  }

  datatype ZoneShape = NoZone | Zone(prefix: Prefix, labels: seq<string>)

  function ZoneShapeOf(pattern: string): ZoneShape {
    ZoneShapeAt(Trim(pattern))
  }

  function ZoneShapeAt(p: string): ZoneShape {
    if p == [] || p[|p| - 1] != '$' then NoZone
    else
      var body := p[..|p| - 1];
      var start := TailStart(body, 0);
      if start == |body| then NoZone
      else
        var labels := EscapedLabels(body[start..]);
        var prefix := FindPrefix(body[..start]);
        if !LooksLikeDomain(labels) || prefix == [] then NoZone else Zone(prefix[0], labels)
  }

  /** `extractZoneDomainFromRegex`; "" stands for null, which is never a domain. */
  function ExtractZone(pattern: string): string {
    match ZoneShapeOf(pattern)
    case NoZone => ""
    case Zone(_, labels) => Lower(Join(labels))
  }

  // ---- the expressions behind the texts ----------------------------------------------------------

  function LabelDot(k: ClassKind): Re {
    Group(true, Cat(Repeat(Class(k), OneOrMore), Chr('.')))
  }

  function DotDot(): Re {
    Group(true, Cat(Repeat(Any, ZeroOrMore), Chr('.')))
  }

  function BoundaryRe(capturing: bool, dotFirst: bool): Re {
    Group(capturing, if dotFirst then Alt(Chr('.'), Start) else Alt(Start, Chr('.')))
  }

  function ZoneRe(prefix: Prefix, domain: string): Re {
    match prefix
    case Labels(k, q) => Cat(Start, Cat(Repeat(LabelDot(k), q), Literal(domain, End)))
    case AnyDot(q) => Cat(Start, Cat(Repeat(DotDot(), q), Literal(domain, End)))
    case Boundary(capturing, dotFirst) => Cat(BoundaryRe(capturing, dotFirst), Literal(domain, End))
  }

  function PrefixText(prefix: Prefix): string {
    match prefix
    case Labels(k, q) => "^(" + ClassText(k) + "+\\.)" + QuantifierText(q)
    case AnyDot(q) => "^(.*\\.)" + QuantifierText(q)
    case Boundary(capturing, dotFirst) =>
      (if capturing then "(" else "(?:") + (if dotFirst then "\\.|^" else "^|\\.") + ")"
  }

  lemma HostText()
    ensures PrefixText(Labels(Host, ZeroOrMore)) == "^([a-z0-9-]+\\.)*"
    ensures PrefixText(Labels(Host, OneOrMore)) == "^([a-z0-9-]+\\.)+"
  {
  }

  lemma WordText()
    ensures PrefixText(Labels(Word, ZeroOrMore)) == "^(\\w+\\.)*"
    ensures PrefixText(Labels(Word, OneOrMore)) == "^(\\w+\\.)+"
  {
  }

  lemma WordHyphenText()
    ensures PrefixText(Labels(WordHyphen, ZeroOrMore)) == "^([\\w-]+\\.)*"
    ensures PrefixText(Labels(WordHyphen, OneOrMore)) == "^([\\w-]+\\.)+"
  {
  }

  lemma AnyDotText()
    ensures PrefixText(AnyDot(ZeroOrOne)) == "^(.*\\.)?" && PrefixText(AnyDot(ZeroOrMore)) == "^(.*\\.)*"
  {
  }

  lemma BoundaryText()
    ensures PrefixText(Boundary(true, true)) == "(\\.|^)" && PrefixText(Boundary(false, true)) == "(?:\\.|^)"
    ensures PrefixText(Boundary(true, false)) == "(^|\\.)" && PrefixText(Boundary(false, false)) == "(?:^|\\.)"
  {
  }

  /** A recognised prefix text is the text of the shape it is recognised as. */
  lemma FoundPrefixText(text: string)
    requires |FindPrefix(text)| > 0
    ensures PrefixText(FindPrefix(text)[0]) == text
  {
    match FindPrefix(text)[0]
    case Labels(Host, _) => HostText();
    case Labels(Word, _) => WordText();
    case Labels(WordHyphen, _) => WordHyphenText();
    case AnyDot(_) => AnyDotText();
    case Boundary(_, _) => BoundaryText();
  }

  lemma Wrap(x: string, q: string)
    ensures "^" + (("(" + (x + ")")) + q) == "^(" + x + ")" + q
  {
  }

  lemma TextOfRepeat(r: Re, q: Quantifier)
    ensures Text(Repeat(Group(true, r), q)) == ("(" + (Text(r) + ")")) + QuantifierText(q)
  {
    assert Text(Group(true, r)) == "(" + (Text(r) + ")");
  }

  lemma TextOfCats(a: Re, b: Re, c: Re)
    ensures Text(Cat(a, Cat(b, c))) == Text(a) + (Text(b) + Text(c))
  {
  }

  lemma RepeatText(r: Re, q: Quantifier, d: string)
    ensures Text(Cat(Start, Cat(Repeat(Group(true, r), q), Literal(d, End)))) ==
            ("^(" + Text(r) + ")" + QuantifierText(q)) + (Escape(d) + "$")
  {
    LiteralEndText(d);
    var t, tail := Text(Repeat(Group(true, r), q)), Escape(d) + "$";
    TextOfRepeat(r, q);
    Wrap(Text(r), QuantifierText(q));
    AssocText("^", t, tail);
    TextOfCats(Start, Repeat(Group(true, r), q), Literal(d, End));
    assert Text(Start) == "^";
  }

  lemma LabelDotText(k: ClassKind, q: Quantifier)
    ensures "^(" + Text(Cat(Repeat(Class(k), OneOrMore), Chr('.'))) + ")" + QuantifierText(q) == PrefixText(Labels(k, q))
  {
  }

  lemma DotDotText(q: Quantifier)
    ensures "^(" + Text(Cat(Repeat(Any, ZeroOrMore), Chr('.'))) + ")" + QuantifierText(q) == PrefixText(AnyDot(q))
  {
  }

  lemma BoundaryReText(capturing: bool, dotFirst: bool, d: string)
    ensures Text(Cat(BoundaryRe(capturing, dotFirst), Literal(d, End))) ==
            PrefixText(Boundary(capturing, dotFirst)) + (Escape(d) + "$")
  {
    LiteralEndText(d);
    assert Text(BoundaryRe(capturing, dotFirst)) == PrefixText(Boundary(capturing, dotFirst));
  }

  lemma ZoneReText(prefix: Prefix, domain: string)
    ensures Text(ZoneRe(prefix, domain)) == PrefixText(prefix) + (Escape(domain) + "$")
  {
    match prefix
    case Labels(k, q) =>
      RepeatText(Cat(Repeat(Class(k), OneOrMore), Chr('.')), q, domain);
      LabelDotText(k, q);
    case AnyDot(q) =>
      RepeatText(Cat(Repeat(Any, ZeroOrMore), Chr('.')), q, domain);
      DotDotText(q);
    case Boundary(capturing, dotFirst) => BoundaryReText(capturing, dotFirst, domain);
  }
}
