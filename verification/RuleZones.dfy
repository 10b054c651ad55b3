/** The zone extractor is sound, and exact for the names each prefix can spell. */
module RuleZones {
  import opened Strings
  import opened Regex
  import opened RuleOptimizer

  // ---- the text is the text of the expression ------------------------------------------------------

  lemma {:induction false} EscapeConcat(a: string, b: string)
    ensures Escape(a + b) == Escape(a) + Escape(b)
  {
    if a == [] {
      assert [] + b == b && [] + Escape(b) == Escape(b);
    } else {
      assert (a + b)[0] == a[0] && (a + b)[1..] == a[1..] + b;
      EscapeConcat(a[1..], b);
      AssocText(ChrText(a[0]), Escape(a[1..]), Escape(b));
    }
  }

  lemma {:induction false} EscapeLabel(s: string)
    requires forall i :: 0 <= i < |s| ==> !IsMeta(s[i])
    ensures Escape(s) == s
  {
    if s != [] {
      EscapeLabel(s[1..]);
      assert [s[0]] + s[1..] == s;
    }
  }

  lemma JoinCons(head: string, rest: seq<string>)
    requires |rest| > 0
    ensures Join([head] + rest) == head + "." + Join(rest)
  {
    assert ([head] + rest)[1..] == rest;
  }

  lemma EscapeCons(head: string, rest: string)
    requires Escape(head) == head
    ensures Escape(head + "." + rest) == head + ("\\." + Escape(rest))
  {
    EscapeConcat(head + ".", rest);
    EscapeConcat(head, ".");
    DotEscape();
    AssocText(head, "\\.", Escape(rest));
  }

  lemma SplitAtDot(s: string, n: nat)
    requires n + 1 < |s| && s[n] == '\\' && s[n + 1] == '.'
    ensures s == s[..n] + ("\\." + s[n + 2..])
  {
  }

  lemma EscapedLabelsCons(s: string)
    requires |EscapedLabels(s)| > 0 && LabelPrefix(s) < |s|
    ensures var n := LabelPrefix(s);
            && n > 0 && n + 1 < |s| && s[n] == '\\' && s[n + 1] == '.'
            && |EscapedLabels(s[n + 2..])| > 0 && EscapedLabels(s) == [s[..n]] + EscapedLabels(s[n + 2..])
  {
  }

  lemma {:induction false} EscapeJoined(s: string)
    requires |EscapedLabels(s)| > 0
    ensures Escape(Join(EscapedLabels(s))) == s
    ensures |EscapedLabels(s)[0]| > 0
  {
    var n := LabelPrefix(s);
    if n < |s| {
      EscapedLabelsCons(s);
      var h, tail := s[..n], s[n + 2..];
      EscapeLabel(h);
      EscapeJoined(tail);
      JoinCons(h, EscapedLabels(tail));
      EscapeCons(h, Join(EscapedLabels(tail)));
      SplitAtDot(s, n);
    } else {
      EscapeLabel(s);
    }
  }

  lemma DotEscape()
    ensures Escape(".") == "\\."
  {
    assert "."[1..] == "";
    assert "\\." + "" == "\\.";
  }

  /** The expression meant by a recognised pattern. */
  function ZoneReOf(shape: ZoneShape): Re
    requires shape.Zone?
  {
    ZoneRe(shape.prefix, Join(shape.labels))
  }

  lemma ZoneTextFrom(prefixText: string, esc: string)
    requires |FindPrefix(prefixText)| > 0 && |EscapedLabels(esc)| > 0
    ensures Text(ZoneRe(FindPrefix(prefixText)[0], Join(EscapedLabels(esc)))) == prefixText + (esc + "$")
    ensures |Join(EscapedLabels(esc))| > 0
  {
    EscapeJoined(esc);
    JoinNonEmpty(EscapedLabels(esc));
    FoundPrefixText(prefixText);
    ZoneReText(FindPrefix(prefixText)[0], Join(EscapedLabels(esc)));
  }

  lemma ZoneTextAt(p: string)
    requires ZoneShapeAt(p).Zone?
    ensures Text(ZoneReOf(ZoneShapeAt(p))) == p && |Join(ZoneShapeAt(p).labels)| > 0
  {
    var body := p[..|p| - 1];
    var start := TailStart(body, 0);
    ZoneTextFrom(body[..start], body[start..]);
    Reassemble(p, start);
  }

  lemma ZonePatternText(pattern: string)
    requires ZoneShapeOf(pattern).Zone?
    ensures Text(ZoneReOf(ZoneShapeOf(pattern))) == Trim(pattern)
    ensures |Join(ZoneShapeOf(pattern).labels)| > 0
  {
    ZoneTextAt(Trim(pattern));
  }

  lemma Reassemble(p: string, start: nat)
    requires |p| > 0 && p[|p| - 1] == '$' && start <= |p| - 1
    ensures p == p[..|p| - 1][..start] + (p[..|p| - 1][start..] + "$")
  {
  }

  lemma JoinNonEmpty(labels: seq<string>)
    requires |labels| > 0 && |labels[0]| > 0
    ensures |Join(labels)| > 0
  {
    if |labels| > 1 {
      assert |Join(labels)| >= |labels[0]|;
    }
  }

  // ---- zones as tails ------------------------------------------------------------------------------

  /** `name` ends in `d`, and `d` stands at a label boundary. */
  ghost predicate ZoneTail(name: string, d: string) {
    var k := |name| - |d|;
    k >= 0 && ReadsAt(d, name, k) && (k == 0 || name[k - 1] == '.')
  }

  lemma LowerTail(name: string, k: nat)
    requires k <= |name|
    ensures Lower(name)[k..] == Lower(name[k..])
  {
  }

  lemma SameLower(a: string, b: string)
    ensures Lower(a) == Lower(b) <==> |a| == |b| && forall i :: 0 <= i < |a| ==> LowerChar(a[i]) == LowerChar(b[i])
  {
    if Lower(a) == Lower(b) {
      forall i | 0 <= i < |a| ensures LowerChar(a[i]) == LowerChar(b[i]) {
        assert Lower(a)[i] == Lower(b)[i];
      }
    }
  }

  lemma ReadsAtIsLower(d: string, name: string)
    requires |d| <= |name|
    ensures ReadsAt(d, name, |name| - |d|) <==> Lower(name)[|name| - |d|..] == Lower(d)
  {
    var k := |name| - |d|;
    var tail := name[k..];
    LowerTail(name, k);
    SameLower(d, tail);
    forall i | 0 <= i < |d| ensures tail[i] == name[k + i] {
    }
  }

  lemma ZoneTailIff(name: string, d: string)
    requires |d| > 0
    ensures ZoneTail(name, d) <==> IsSubdomainOf(Lower(name), Lower(d))
  {
    var k, n, z := |name| - |d|, Lower(name), Lower(d);
    if k >= 0 {
      ReadsAtIsLower(d, name);
      if k > 0 {
        assert n[k - 1] == '.' <==> name[k - 1] == '.';
        assert |"." + z| == |z| + 1;
        assert n[k - 1..] == [n[k - 1]] + n[k..];
        assert EndsWith(n, "." + z) <==> n[k - 1..] == "." + z;
        if EndsWith(n, "." + z) {
          assert n[k - 1..][0] == '.' && n[k - 1..][1..] == z;
        }
      } else {
        assert n[0..] == n;
      }
    }
  }

  // ---- soundness -------------------------------------------------------------------------------------

  lemma {:induction false} DotBefore(r: Re, q: Quantifier, s: string, i: int, j: int)
    requires Matches(Repeat(Group(true, Cat(r, Chr('.'))), q), s, i, j)
    ensures i == j || (j > 0 && s[j - 1] == '.')
    ensures q.OneOrMore? ==> i < j
    decreases j - i
  {
    var g := Group(true, Cat(r, Chr('.')));
    if Matches(g, s, i, j) {
      var k := CatSplit(r, Chr('.'), s, i, j);
    } else if k :| i < k <= j && Matches(g, s, i, k) && Matches(Repeat(g, q), s, k, j) {
      DotBefore(r, q, s, k, j);
      var m := CatSplit(r, Chr('.'), s, i, k);
    }
  }

  lemma StartThen(r: Re, d: string, s: string, i: int, j: int)
    requires Matches(Cat(Start, Cat(r, Literal(d, End))), s, i, j)
    ensures |d| <= |s| && Matches(r, s, 0, |s| - |d|) && ReadsAt(d, s, |s| - |d|)
  {
    var k := CatSplit(Start, Cat(r, Literal(d, End)), s, i, j);
    var m := CatSplit(r, Literal(d, End), s, k, j);
    LiteralAtEnd(d, s, m, j);
  }

  lemma ThenEnd(r: Re, d: string, s: string)
    requires |d| <= |s| && Matches(r, s, 0, |s| - |d|) && ReadsAt(d, s, |s| - |d|)
    ensures Found(Cat(Start, Cat(r, Literal(d, End))), s)
  {
    LiteralAtEnd(d, s, |s| - |d|, |s|);
    CatJoin(r, Literal(d, End), s, 0, |s| - |d|, |s|);
    CatJoin(Start, Cat(r, Literal(d, End)), s, 0, 0, |s|);
  }

  lemma BoundaryMatches(capturing: bool, dotFirst: bool, s: string, i: int, j: int)
    ensures Matches(BoundaryRe(capturing, dotFirst), s, i, j) <==>
            Matches(Chr('.'), s, i, j) || Matches(Start, s, i, j)
  {
    var alt := if dotFirst then Alt(Chr('.'), Start) else Alt(Start, Chr('.'));
    assert Matches(alt, s, i, j) <==> Matches(Chr('.'), s, i, j) || Matches(Start, s, i, j);
    assert Matches(Group(capturing, alt), s, i, j) <==> Matches(alt, s, i, j);
  }

  lemma BoundaryThen(capturing: bool, dotFirst: bool, d: string, s: string, i: int, j: int)
    requires Matches(Cat(BoundaryRe(capturing, dotFirst), Literal(d, End)), s, i, j)
    ensures ZoneTail(s, d)
  {
    var k := CatSplit(BoundaryRe(capturing, dotFirst), Literal(d, End), s, i, j);
    BoundaryMatches(capturing, dotFirst, s, i, k);
    LiteralAtEnd(d, s, k, j);
    assert Matches(Chr('.'), s, i, k) ==> s[k - 1] == '.';
  }

  /** Every name a recognised expression matches lies in the zone. */
  lemma ZoneReSound(prefix: Prefix, d: string, name: string)
    requires Found(ZoneRe(prefix, d), name)
    ensures ZoneTail(name, d)
    ensures prefix.Labels? && prefix.q.OneOrMore? ==> |name| != |d|
  {
    var i, j :| 0 <= i <= j <= |name| && Matches(ZoneRe(prefix, d), name, i, j);
    match prefix
    case Labels(k, q) =>
      StartThen(Repeat(LabelDot(k), q), d, name, i, j);
      DotBefore(Repeat(Class(k), OneOrMore), q, name, 0, |name| - |d|);
    case AnyDot(q) =>
      StartThen(Repeat(DotDot(), q), d, name, i, j);
      DotBefore(Repeat(Any, ZeroOrMore), q, name, 0, |name| - |d|);
    case Boundary(capturing, dotFirst) => BoundaryThen(capturing, dotFirst, d, name, i, j);
  }

  /** `extractZoneDomainFromRegex` is sound: whatever the accepted pattern matches is covered by the zone entry. */
  lemma ZoneExtractionSound(pattern: string, name: string)
    requires ZoneShapeOf(pattern).Zone?
    ensures Text(ZoneReOf(ZoneShapeOf(pattern))) == Trim(pattern)
    ensures Found(ZoneReOf(ZoneShapeOf(pattern)), name) ==> IsSubdomainOf(Lower(name), ExtractZone(pattern))
  {
    var shape := ZoneShapeOf(pattern);
    ZonePatternText(pattern);
    if Found(ZoneReOf(shape), name) {
      ZoneReSound(shape.prefix, Join(shape.labels), name);
      ZoneTailIff(name, Join(shape.labels));
    }
  }
}
