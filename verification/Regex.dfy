/** A small regular-expression language: concrete syntax and meaning, as far as the rule optimizer's patterns need it. */
module Regex {
  import opened Strings

  /** `[a-z0-9-]`, `[\w-]`, `\w` */
  datatype ClassKind = Host | WordHyphen | Word

  datatype Quantifier = ZeroOrMore | OneOrMore | ZeroOrOne

  datatype Re =
    | Chr(c: char)
    | Any
    | Class(kind: ClassKind)
    | Start
    | End
    | Cat(first: Re, second: Re)
    | Alt(left: Re, right: Re)
    | Repeat(r: Re, q: Quantifier)
    | Group(capturing: bool, r: Re)
    | Given(text: string, spans: (string, int, int) -> bool)

  // ---- concrete syntax -------------------------------------------------------------------------

  /** The characters that are not text in a pattern. */
  predicate IsMeta(c: char) {
    c == '.' || c == '\\' || c == '^' || c == '$' || c == '|' || c == '?' || c == '*' || c == '+'
    || c == '(' || c == ')' || c == '[' || c == ']' || c == '{' || c == '}'
  }

  function ChrText(c: char): string {
    if IsMeta(c) then ['\\', c] else [c]
  }

  function ClassText(k: ClassKind): string {
    match k
    case Host => "[a-z0-9-]"
    case WordHyphen => "[\\w-]"
    case Word => "\\w"
  }

  function QuantifierText(q: Quantifier): string {
    match q
    case ZeroOrMore => "*"
    case OneOrMore => "+"
    case ZeroOrOne => "?"
  }

  /** The pattern text of an expression. `Given` is a piece of any text with any meaning, for pieces that are not looked
      into. */
  function Text(re: Re): string {
    match re
    case Chr(c) => ChrText(c)
    case Any => "."
    case Class(k) => ClassText(k)
    case Start => "^"
    case End => "$"
    case Cat(a, b) => Text(a) + Text(b)
    case Alt(a, b) => Text(a) + ("|" + Text(b))
    case Repeat(r, q) => Text(r) + QuantifierText(q)
    case Group(capturing, r) => (if capturing then "(" else "(?:") + (Text(r) + ")")
    case Given(text, _) => text
  }

  /** May stand next to something else, or be repeated, only inside a group. */
  predicate IsLoose(re: Re) {
    re.Alt? || re.Given?
  }

  /** No part of the text binds otherwise than in the expression: alternatives and given pieces stand in a group of their
      own, and only groups, classes and dots are repeated. */
  predicate BindsAsWritten(re: Re) {
    match re
    case Cat(a, b) => BindsAsWritten(a) && BindsAsWritten(b) && !IsLoose(a) && !IsLoose(b)
    case Alt(a, b) => BindsAsWritten(a) && BindsAsWritten(b) && !a.Given? && !b.Given?
    case Repeat(r, _) => BindsAsWritten(r) && (r.Group? || r.Class? || r.Any?)
    case Group(_, r) => BindsAsWritten(r)
    case _ => true
  }

  // ---- meaning ---------------------------------------------------------------------------------

  predicate IsAlnum(c: char) {
    'a' <= LowerChar(c) <= 'z' || '0' <= c <= '9'
  }

  predicate InClass(k: ClassKind, c: char) {
    match k
    case Host => IsAlnum(c) || c == '-'
    case WordHyphen => IsAlnum(c) || c == '_' || c == '-'
    case Word => IsAlnum(c) || c == '_'
  }

  predicate IsLineTerminator(c: char) {
    c == '\n' || c == '\r' || c == '\U{2028}' || c == '\U{2029}'
  }

  /** `re` matches exactly `s[i..j]`, letters compared without case. */
  ghost predicate Matches(re: Re, s: string, i: int, j: int)
    decreases re, j - i
  {
    0 <= i <= j <= |s| &&
    match re
    case Chr(c) => j == i + 1 && LowerChar(c) == LowerChar(s[i])
    case Any => j == i + 1 && !IsLineTerminator(s[i])
    case Class(k) => j == i + 1 && InClass(k, s[i])
    case Start => i == j == 0
    case End => i == j == |s|
    case Cat(a, b) => exists k :: i <= k <= j && Matches(a, s, i, k) && Matches(b, s, k, j)
    case Alt(a, b) => Matches(a, s, i, j) || Matches(b, s, i, j)
    case Group(_, r) => Matches(r, s, i, j)
    case Given(_, spans) => spans(s, i, j)
    case Repeat(r, ZeroOrOne) => i == j || Matches(r, s, i, j)
    case Repeat(r, ZeroOrMore) =>
      i == j || exists k :: i < k <= j && Matches(r, s, i, k) && Matches(re, s, k, j)
    case Repeat(r, OneOrMore) =>
      Matches(r, s, i, j) || exists k :: i < k <= j && Matches(r, s, i, k) && Matches(re, s, k, j)
  }

  /** `new RegExp(pattern, "i").test(s)`: somewhere in `s`. */
  ghost predicate Found(re: Re, s: string) {
    exists i, j :: 0 <= i <= j <= |s| && Matches(re, s, i, j)
  }

  // ---- literals --------------------------------------------------------------------------------

  /** The characters of `d`, then `tail`. */
  function Literal(d: string, tail: Re): Re {
    if d == [] then tail else Cat(Chr(d[0]), Literal(d[1..], tail))
  }

  function Escape(d: string): string {
    if d == [] then [] else ChrText(d[0]) + Escape(d[1..])
  }

  ghost predicate ReadsAt(d: string, s: string, i: int) {
    0 <= i && i + |d| <= |s| && forall k :: 0 <= k < |d| ==> LowerChar(d[k]) == LowerChar(s[i + k])
  }

  lemma SplitAround(s: string, n: nat)
    requires n < |s|
    ensures s == s[..n] + ([s[n]] + s[n + 1..])
  {
  }

  lemma SplitPrefix(s: string, prefix: string)
    requires |prefix| <= |s| && s[..|prefix|] == prefix
    ensures s == prefix + s[|prefix|..]
  {
  }

  lemma SplitHead(s: string)
    requires |s| > 0
    ensures s == [s[0]] + s[1..]
  {
  }

  lemma SplitEnds(s: string, n: nat)
    requires n < |s|
    ensures s == s[..n] + (s[n..|s| - 1] + [s[|s| - 1]])
  {
  }

  lemma {:induction false} LiteralText(d: string, tail: Re)
    ensures Text(Literal(d, tail)) == Escape(d) + Text(tail)
  {
    if d == [] {
      assert [] + Text(tail) == Text(tail);
    } else {
      LiteralText(d[1..], tail);
      AssocText(ChrText(d[0]), Escape(d[1..]), Text(tail));
    }
  }

  lemma AssocText(a: string, b: string, c: string)
    ensures (a + b) + c == a + (b + c)
  {
  }

  lemma LiteralEndText(d: string)
    ensures Text(Literal(d, End)) == Escape(d) + "$"
  {
    LiteralText(d, End);
    assert Text(End) == "$";
  }

  lemma CatJoin(a: Re, b: Re, s: string, i: int, k: int, j: int)
    requires 0 <= i <= k <= j <= |s| && Matches(a, s, i, k) && Matches(b, s, k, j)
    ensures Matches(Cat(a, b), s, i, j)
  {
  }

  lemma CatSplit(a: Re, b: Re, s: string, i: int, j: int) returns (k: int)
    requires Matches(Cat(a, b), s, i, j)
    ensures 0 <= i <= k <= j <= |s| && Matches(a, s, i, k) && Matches(b, s, k, j)
  {
    CatHasSplit(a, b, s, i, j);
    k :| i <= k <= j && Matches(a, s, i, k) && Matches(b, s, k, j);
  }

  lemma CatHasSplit(a: Re, b: Re, s: string, i: int, j: int)
    requires Matches(Cat(a, b), s, i, j)
    ensures 0 <= i <= j <= |s| && exists k :: i <= k <= j && Matches(a, s, i, k) && Matches(b, s, k, j)
  {
  }

  lemma ChrThen(c: char, b: Re, s: string, i: int, j: int)
    ensures Matches(Cat(Chr(c), b), s, i, j) <==>
            0 <= i < |s| && LowerChar(c) == LowerChar(s[i]) && Matches(b, s, i + 1, j)
  {
    if Matches(Cat(Chr(c), b), s, i, j) {
      var k := CatSplit(Chr(c), b, s, i, j);
    }
    if 0 <= i < |s| && LowerChar(c) == LowerChar(s[i]) && Matches(b, s, i + 1, j) {
      CatJoin(Chr(c), b, s, i, i + 1, j);
    }
  }

  lemma ReadsAtStep(d: string, s: string, i: int)
    requires d != []
    ensures ReadsAt(d, s, i) <==>
            0 <= i < |s| && LowerChar(d[0]) == LowerChar(s[i]) && ReadsAt(d[1..], s, i + 1)
  {
    if 0 <= i < |s| && LowerChar(d[0]) == LowerChar(s[i]) && ReadsAt(d[1..], s, i + 1) {
      forall k | 0 <= k < |d| ensures LowerChar(d[k]) == LowerChar(s[i + k]) {
        if k > 0 {
          assert d[1..][k - 1] == d[k];
        }
      }
    }
  }

  lemma {:induction false} LiteralMatches(d: string, tail: Re, s: string, i: int, j: int)
    ensures 0 <= i ==> (Matches(Literal(d, tail), s, i, j) <==> ReadsAt(d, s, i) && Matches(tail, s, i + |d|, j))
  {
    if d != [] {
      LiteralMatches(d[1..], tail, s, i + 1, j);
      ChrThen(d[0], Literal(d[1..], tail), s, i, j);
      ReadsAtStep(d, s, i);
    }
  }

  /** A literal at the very end of the string. */
  lemma LiteralAtEnd(d: string, s: string, i: int, j: int)
    requires 0 <= i
    ensures Matches(Literal(d, End), s, i, j) <==> j == |s| && i + |d| == |s| && ReadsAt(d, s, i)
  {
    LiteralMatches(d, End, s, i, j);
  }
}
