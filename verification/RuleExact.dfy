/** When a recognised pattern matches exactly the zone, and when only part of it. */
module RuleExact {
  import opened Strings
  import opened Regex
  import opened RuleOptimizer
  import opened RuleZones

  /** `name` is made of non-empty labels over the class. */
  predicate LabelledOver(name: string, k: ClassKind) {
    forall i | 0 <= i < |name| :: LabelledAt(name, k, i)
  }

  /** A dot separates two non-empty labels; anything else belongs to the class. */
  predicate LabelledAt(name: string, k: ClassKind, i: nat)
    requires i < |name|
  {
    if name[i] == '.' then 0 < i < |name| - 1 && name[i - 1] != '.' else InClass(k, name[i])
  }

  predicate OnOneLine(name: string) {
    forall i | 0 <= i < |name| :: !IsLineTerminator(name[i])
  }

  lemma RepeatOnce(r: Re, q: Quantifier, s: string, i: int, j: int)
    requires 0 <= i < j <= |s| && Matches(r, s, i, j)
    ensures Matches(Repeat(r, q), s, i, j)
  {
    assert Matches(Repeat(r, ZeroOrMore), s, j, j);
  }

  lemma RepeatMore(r: Re, q: Quantifier, s: string, i: int, k: int, j: int)
    requires 0 <= i < k <= j <= |s| && !q.ZeroOrOne?
    requires Matches(r, s, i, k) && Matches(Repeat(r, q), s, k, j)
    ensures Matches(Repeat(r, q), s, i, j)
  {
  }

  lemma {:induction false} AnyRun(s: string, i: nat, j: nat)
    requires i <= j <= |s| && OnOneLine(s)
    ensures Matches(Repeat(Any, ZeroOrMore), s, i, j)
    decreases j - i
  {
    if i < j {
      AnyRun(s, i + 1, j);
      RepeatMore(Any, ZeroOrMore, s, i, i + 1, j);
    }
  }

  lemma {:induction false} ClassRun(k: ClassKind, s: string, i: nat, j: nat)
    requires i < j <= |s| && forall x :: i <= x < j ==> InClass(k, s[x])
    ensures Matches(Repeat(Class(k), OneOrMore), s, i, j)
    decreases j - i
  {
    if i + 1 < j {
      ClassRun(k, s, i + 1, j);
      RepeatMore(Class(k), OneOrMore, s, i, i + 1, j);
    } else {
      RepeatOnce(Class(k), OneOrMore, s, i, j);
    }
  }

  /** The first dot at or after `i`. */
  function NextDot(s: string, i: nat): (m: nat)
    requires i < |s| && exists x :: i <= x < |s| && s[x] == '.'
    ensures i <= m < |s| && s[m] == '.' && forall x :: i <= x < m ==> s[x] != '.'
    decreases |s| - i
  {
    if s[i] == '.' then i else NextDot(s, i + 1)
  }

  /** Whole labels with their dots are matched by the repeated label group. */
  lemma {:induction false} LabelRun(k: ClassKind, q: Quantifier, s: string, i: nat, e: nat)
    requires i < e <= |s| && LabelledOver(s, k) && (i == 0 || s[i - 1] == '.') && s[e - 1] == '.' && !q.ZeroOrOne?
    ensures Matches(Repeat(LabelDot(k), q), s, i, e)
    decreases e - i
  {
    assert LabelledAt(s, k, i);
    var m := NextDot(s, i);
    assert m <= e - 1;
    forall x | i <= x < m ensures InClass(k, s[x]) {
      assert LabelledAt(s, k, x);
    }
    ClassRun(k, s, i, m);
    CatJoin(Repeat(Class(k), OneOrMore), Chr('.'), s, i, m, m + 1);
    assert Matches(LabelDot(k), s, i, m + 1);
    if m + 1 < e {
      LabelRun(k, q, s, m + 1, e);
      RepeatMore(LabelDot(k), q, s, i, m + 1, e);
    } else {
      RepeatOnce(LabelDot(k), q, s, i, e);
    }
  }

  /** The names for which a prefix shape spells out everything a zone entry covers. */
  predicate Spells(prefix: Prefix, name: string) {
    match prefix
    case Labels(k, _) => LabelledOver(name, k)
    case AnyDot(_) => OnOneLine(name)
    case Boundary(_, _) => true
  }

  lemma BoundaryFinds(capturing: bool, dotFirst: bool, d: string, name: string)
    requires ZoneTail(name, d)
    ensures Found(Cat(BoundaryRe(capturing, dotFirst), Literal(d, End)), name)
  {
    var k := |name| - |d|;
    var i := if k == 0 then 0 else k - 1;
    BoundaryMatches(capturing, dotFirst, name, i, k);
    assert k == 0 ==> Matches(Start, name, i, k);
    assert k > 0 ==> Matches(Chr('.'), name, i, k);
    LiteralAtEnd(d, name, k, |name|);
    CatJoin(BoundaryRe(capturing, dotFirst), Literal(d, End), name, i, k, |name|);
  }

  lemma AnyDotFinds(q: Quantifier, d: string, name: string)
    requires ZoneTail(name, d) && OnOneLine(name) && !q.OneOrMore?
    ensures Found(ZoneRe(AnyDot(q), d), name)
  {
    var k := |name| - |d|;
    if k > 0 {
      AnyRun(name, 0, k - 1);
      assert Matches(Chr('.'), name, k - 1, k);
      CatJoin(Repeat(Any, ZeroOrMore), Chr('.'), name, 0, k - 1, k);
      assert Matches(DotDot(), name, 0, k);
      RepeatOnce(DotDot(), q, name, 0, k);
    }
    ThenEnd(Repeat(DotDot(), q), d, name);
  }

  lemma LabelsFind(k: ClassKind, q: Quantifier, d: string, name: string)
    requires ZoneTail(name, d) && LabelledOver(name, k) && !q.ZeroOrOne?
    requires q.OneOrMore? ==> |name| != |d|
    ensures Found(ZoneRe(Labels(k, q), d), name)
  {
    var e := |name| - |d|;
    if e > 0 {
      LabelRun(k, q, name, 0, e);
    }
    ThenEnd(Repeat(LabelDot(k), q), d, name);
  }

  /** The quantifiers that the prefix table pairs with each shape. */
  predicate TableQuantifier(prefix: Prefix) {
    match prefix
    case Labels(_, q) => !q.ZeroOrOne?
    case AnyDot(q) => !q.OneOrMore?
    case Boundary(_, _) => true
  }

  predicate SubdomainsOnly(prefix: Prefix) {
    prefix.Labels? && prefix.q.OneOrMore?
  }

  lemma ZoneReFinds(prefix: Prefix, d: string, name: string)
    requires TableQuantifier(prefix) && Spells(prefix, name) && ZoneTail(name, d)
    requires SubdomainsOnly(prefix) ==> |name| != |d|
    ensures Found(ZoneRe(prefix, d), name)
  {
    match prefix
    case Labels(k, q) => LabelsFind(k, q, d, name);
    case AnyDot(q) => AnyDotFinds(q, d, name);
    case Boundary(capturing, dotFirst) => BoundaryFinds(capturing, dotFirst, d, name);
  }

  lemma ZoneReExact(prefix: Prefix, d: string, name: string)
    requires TableQuantifier(prefix) && Spells(prefix, name) && |d| > 0
    ensures Found(ZoneRe(prefix, d), name) <==>
            IsSubdomainOf(Lower(name), Lower(d)) && (SubdomainsOnly(prefix) ==> Lower(name) != Lower(d))
  {
    ZoneTailIff(name, d);
    if Found(ZoneRe(prefix, d), name) {
      ZoneReSound(prefix, d, name);
    }
    if ZoneTail(name, d) && (SubdomainsOnly(prefix) ==> Lower(name) != Lower(d)) {
      SameLengthTail(name, d);
      ZoneReFinds(prefix, d, name);
    }
  }

  lemma TableQuantifiers(text: string)
    ensures |FindPrefix(text)| > 0 ==> TableQuantifier(FindPrefix(text)[0])
  {
  }

  /** The accepted patterns match exactly the zone: always for the boundary prefixes, on names without line breaks for the
      dot-star prefixes, and on names with non-empty labels over the class for the label prefixes; the `+` forms match
      exactly the zone without its apex. */
  lemma ZoneExtractionExact(pattern: string, name: string)
    requires ZoneShapeOf(pattern).Zone? && Spells(ZoneShapeOf(pattern).prefix, name)
    ensures var shape := ZoneShapeOf(pattern);
            Found(ZoneReOf(shape), name) <==>
            IsSubdomainOf(Lower(name), ExtractZone(pattern)) &&
            (SubdomainsOnly(shape.prefix) ==> Lower(name) != ExtractZone(pattern))
  {
    var shape := ZoneShapeOf(pattern);
    ZonePatternText(pattern);
    ShapeQuantifier(Trim(pattern));
    ZoneReExact(shape.prefix, Join(shape.labels), name);
  }

  lemma ShapeQuantifier(p: string)
    requires ZoneShapeAt(p).Zone?
    ensures TableQuantifier(ZoneShapeAt(p).prefix)
  {
    TableQuantifiers(p[..|p| - 1][..TailStart(p[..|p| - 1], 0)]);
  }

  lemma SameLengthTail(name: string, d: string)
    requires ZoneTail(name, d)
    ensures |name| == |d| ==> Lower(name) == Lower(d)
  {
    if |name| == |d| {
      ReadsAtIsLower(d, name);
      assert Lower(name)[0..] == Lower(name);
    }
  }
}
