/** The ownership comment of a synchronised record: `buildManagedComment` and `parseManagedComment`. */
module ManagedComment {
  import opened Options
  import opened Strings

  const PREFIX := "TDC DHCP DNS sync"

  /** The fields of a comment; "" is a field that is not there. */
  datatype Managed = Managed(node: string, scope: string, ip: string, host: string, mac: string)

  // ---- printing ------------------------------------------------------------------------------------------

  function Field(key: string, value: string): string {
    key + "=" + value
  }

  /** Empty optional values are left out. */
  function Optional(key: string, value: string): seq<string> {
    if |value| > 0 then [Field(key, value)] else []
  }

  function Fields(m: Managed): seq<string> {
    [Field("sourceNode", m.node), Field("scope", m.scope)]
    + Optional("ip", m.ip) + Optional("host", m.host) + Optional("mac", m.mac)
  }

  /** `parts.join("; ")`. */
  function JoinParts(parts: seq<string>): string {
    if |parts| == 0 then ""
    else if |parts| == 1 then parts[0]
    else parts[0] + ";" + (" " + JoinParts(parts[1..]))
  }

  function Build(m: Managed): string {
    JoinParts([PREFIX] + Fields(m))
  }

  // ---- parsing -------------------------------------------------------------------------------------------

  function TrimAll(parts: seq<string>): (r: seq<string>)
    ensures |r| == |parts| && forall i :: 0 <= i < |r| ==> r[i] == Trim(parts[i])
  {
    seq(|parts|, i requires 0 <= i < |parts| => Trim(parts[i]))
  }

  function Assign(m: Managed, key: string, value: string): Managed {
    if |key| == 0 || |value| == 0 then m
    else if key == "sourcenode" then m.(node := value)
    else if key == "scope" then m.(scope := value)
    else if key == "ip" then m.(ip := value)
    else if key == "host" then m.(host := value)
    else if key == "mac" then m.(mac := value)
    else m
  }

  /** One part: the text before the first `=` is the key, everything behind it the value. */
  function ParsePart(m: Managed, part: string): Managed {
    var n := FirstOf(part, '=');
    Assign(m, Lower(Trim(part[..n])), if n == |part| then "" else Trim(part[n + 1..]))
  }

  function ParseParts(parts: seq<string>): Managed {
    if |parts| == 0 then Managed("", "", "", "", "")
    else ParsePart(ParseParts(parts[..|parts| - 1]), parts[|parts| - 1])
  }

  function Parse(comment: string): Option<Managed> {
    var raw := Trim(comment);
    if |raw| == 0 then None
    else
      var parts := TrimAll(Split(raw, ';'));
      if Lower(parts[0]) != Lower(PREFIX) then None else Some(ParseParts(parts[1..]))
  }

  // ---- trimmed texts ---------------------------------------------------------------------------------------

  lemma TrimBlankBefore(s: string)
    requires |s| > 0 && Trimmed(s)
    ensures Trim(" " + s) == s
  {
    assert (" " + s)[1..] == s;
    TrimTrims(s);
    assert TrimStart(" " + s) == TrimStart(s) == s;
  }

  // ---- the round trip ----------------------------------------------------------------------------------------

  /** A value that survives: no blank at its ends, no `;`. It may contain `=`. */
  predicate Plain(v: string) {
    Trimmed(v) && ';' !in v
  }

  predicate AllPlain(m: Managed) {
    Plain(m.node) && Plain(m.scope) && Plain(m.ip) && Plain(m.host) && Plain(m.mac)
  }

  predicate IsPart(p: string) {
    |p| > 0 && Plain(p)
  }

  lemma JoinIsTrimmed(parts: seq<string>)
    requires |parts| > 0 && forall i :: 0 <= i < |parts| ==> IsPart(parts[i])
    ensures |JoinParts(parts)| > 0 && Trimmed(JoinParts(parts))
  {
    if |parts| > 1 {
      JoinIsTrimmed(parts[1..]);
      var rest := JoinParts(parts[1..]);
      assert IsPart(parts[0]);
      var s := parts[0] + ";" + (" " + rest);
      assert s[|s| - 1] == rest[|rest| - 1];
    }
  }

  lemma TrimBlank(blank: string, p: string)
    requires IsPart(p) && (blank == "" || blank == " ")
    ensures Trim(blank + p) == p
  {
    TrimBlankBefore(p);
    TrimTrims(p);
    assert "" + p == p;
  }

  lemma TrimAllCons(p: string, parts: seq<string>)
    ensures TrimAll([p] + parts) == [Trim(p)] + TrimAll(parts)
  {
  }

  lemma SplitJoinStep(first: string, rest: string, parts: seq<string>)
    requires |parts| > 0 && ';' !in first && Trim(first) == parts[0] && TrimAll(Split(rest, ';')) == parts[1..]
    ensures TrimAll(Split(first + ";" + rest, ';')) == parts
  {
    SplitConcat(first, ';', rest);
    TrimAllCons(first, Split(rest, ';'));
    assert parts == [parts[0]] + parts[1..];
  }

  lemma Regroup(blank: string, p: string, rest: string)
    ensures blank + (p + ";" + rest) == (blank + p) + ";" + rest
  {
  }

  /** Splitting what was joined gives the parts back, up to the blanks that the join put in. */
  lemma {:induction false} SplitOfJoin(parts: seq<string>, blank: string)
    requires |parts| > 0 && forall i :: 0 <= i < |parts| ==> IsPart(parts[i])
    requires blank == "" || blank == " "
    ensures TrimAll(Split(blank + JoinParts(parts), ';')) == parts
  {
    var first := blank + parts[0];
    assert IsPart(parts[0]);
    TrimBlank(blank, parts[0]);
    if |parts| == 1 {
      SplitWhole(first, ';');
    } else {
      SplitOfJoin(parts[1..], " ");
      SplitJoinStep(first, " " + JoinParts(parts[1..]), parts);
      Regroup(blank, parts[0], " " + JoinParts(parts[1..]));
    }
  }

  lemma ParsePartOfField(m: Managed, key: string, value: string)
    requires '=' !in key && |key| > 0 && Trimmed(key) && Plain(value)
    ensures ParsePart(m, Field(key, value)) == Assign(m, Lower(key), value)
  {
    FirstOfConcat(key, '=', value);
    var part := Field(key, value);
    assert part == key + ['='] + value && part[..|key|] == key && part[|key| + 1..] == value;
    TrimTrims(key);
    TrimTrims(value);
  }

  lemma ParseSnoc(parts: seq<string>, p: string)
    ensures ParseParts(parts + [p]) == ParsePart(ParseParts(parts), p)
  {
    assert (parts + [p])[..|parts|] == parts;
  }

  lemma ParseOptional(parts: seq<string>, key: string, value: string)
    requires '=' !in key && |key| > 0 && Trimmed(key) && Plain(value)
    ensures ParseParts(parts + Optional(key, value)) == Assign(ParseParts(parts), Lower(key), value)
  {
    if |value| > 0 {
      ParseSnoc(parts, Field(key, value));
      ParsePartOfField(ParseParts(parts), key, value);
    } else {
      assert parts + [] == parts;
    }
  }

  predicate IsKey(key: string) {
    '=' !in key && |key| > 0 && Trimmed(key)
  }

  lemma ParseRequired(k1: string, v1: string, k2: string, v2: string)
    requires IsKey(k1) && IsKey(k2) && Plain(v1) && Plain(v2)
    ensures ParseParts([Field(k1, v1), Field(k2, v2)]) ==
            Assign(Assign(Managed("", "", "", "", ""), Lower(k1), v1), Lower(k2), v2)
  {
    var a, b := Field(k1, v1), Field(k2, v2);
    ParseSnoc([], a);
    ParseSnoc([a], b);
    assert [] + [a] == [a] && [a] + [b] == [a, b];
    ParsePartOfField(ParseParts([]), k1, v1);
    ParsePartOfField(ParseParts([a]), k2, v2);
  }

  lemma ParseThree(parts: seq<string>, k1: string, v1: string, k2: string, v2: string, k3: string, v3: string)
    requires IsKey(k1) && IsKey(k2) && IsKey(k3) && Plain(v1) && Plain(v2) && Plain(v3)
    ensures ParseParts(parts + Optional(k1, v1) + Optional(k2, v2) + Optional(k3, v3)) ==
            Assign(Assign(Assign(ParseParts(parts), Lower(k1), v1), Lower(k2), v2), Lower(k3), v3)
  {
    ParseOptional(parts, k1, v1);
    ParseOptional(parts + Optional(k1, v1), k2, v2);
    ParseOptional(parts + Optional(k1, v1) + Optional(k2, v2), k3, v3);
  }

  lemma KeysLower()
    ensures Lower("sourceNode") == "sourcenode" && Lower("scope") == "scope" && Lower("ip") == "ip"
    ensures Lower("host") == "host" && Lower("mac") == "mac"
  {
  }

  lemma KeysAreKeys()
    ensures IsKey("sourceNode") && IsKey("scope") && IsKey("ip") && IsKey("host") && IsKey("mac")
  {
  }

  lemma AssignAll(m: Managed)
    ensures Assign(Assign(Assign(Assign(Assign(Managed("", "", "", "", ""), "sourcenode", m.node), "scope", m.scope),
                                 "ip", m.ip), "host", m.host), "mac", m.mac) == m
  {
  }

  lemma ParseOfFields(m: Managed)
    requires AllPlain(m)
    ensures ParseParts(Fields(m)) == m
  {
    KeysAreKeys();
    ParseRequired("sourceNode", m.node, "scope", m.scope);
    ParseThree([Field("sourceNode", m.node), Field("scope", m.scope)], "ip", m.ip, "host", m.host, "mac", m.mac);
    KeysLower();
    AssignAll(m);
  }

  lemma FieldsAreParts(m: Managed)
    requires AllPlain(m)
    ensures forall i :: 0 <= i < |Fields(m)| ==> IsPart(Fields(m)[i])
  {
  }

  lemma BuiltParses(m: Managed)
    requires AllPlain(m)
    ensures Parse(Build(m)) == Some(m)
  {
    FieldsAreParts(m);
    var parts := [PREFIX] + Fields(m);
    JoinIsTrimmed(parts);
    TrimTrims(Build(m));
    SplitOfJoin(parts, "");
    assert "" + Build(m) == Build(m);
    assert parts[1..] == Fields(m);
    ParseOfFields(m);
  }

  lemma TrimIsPlain(v: string)
    requires ';' !in v
    ensures Plain(Trim(v))
  {
    TrimTrims(v);
  }

  lemma AssignIsPlain(m: Managed, key: string, value: string)
    requires AllPlain(m) && Plain(value)
    ensures AllPlain(Assign(m, key, value))
  {
  }

  lemma ParsePartIsPlain(m: Managed, part: string)
    requires AllPlain(m) && ';' !in part
    ensures AllPlain(ParsePart(m, part))
  {
    var n := FirstOf(part, '=');
    var value := if n == |part| then "" else Trim(part[n + 1..]);
    if n < |part| {
      TrimIsPlain(part[n + 1..]);
    }
    AssignIsPlain(m, Lower(Trim(part[..n])), value);
  }

  lemma {:induction false} ParsedIsPlain(parts: seq<string>)
    requires forall i :: 0 <= i < |parts| ==> ';' !in parts[i]
    ensures AllPlain(ParseParts(parts))
  {
    if |parts| > 0 {
      ParsedIsPlain(parts[..|parts| - 1]);
      ParsePartIsPlain(ParseParts(parts[..|parts| - 1]), parts[|parts| - 1]);
    }
  }

  /** Printing and parsing is the identity exactly on records all of whose values are plain. */
  lemma RoundTripIff(m: Managed)
    ensures Parse(Build(m)) == Some(m) <==> AllPlain(m)
  {
    if AllPlain(m) {
      BuiltParses(m);
    }
    var raw := Trim(Build(m));
    if |raw| > 0 {
      var split := Split(raw, ';');
      PartsLackSeparator(raw, ';');
      forall i | 0 <= i < |split| ensures ';' !in Trim(split[i]) {
        assert split[i] in split;
        TrimTrims(split[i]);
      }
      ParsedIsPlain(TrimAll(split)[1..]);
    }
  }

  // ---- other comments ----------------------------------------------------------------------------------------

  /** A comment is taken for the service's own exactly if its first part is the prefix, whatever follows. */
  lemma ParsesIff(comment: string)
    ensures Parse(comment).Some? <==> Lower(Trim(Trim(comment)[..FirstOf(Trim(comment), ';')])) == "tdc dhcp dns sync"
  {
    var raw := Trim(comment);
    PrefixText();
    TrimTrims("");
    if |raw| > 0 {
      assert Split(raw, ';')[0] == raw[..FirstOf(raw, ';')];
    } else {
      assert raw[..FirstOf(raw, ';')] == "";
    }
  }

  lemma PrefixText()
    ensures Lower(PREFIX) == "tdc dhcp dns sync"
  {
  }

  lemma TrimAllSnoc(parts: seq<string>, p: string)
    ensures TrimAll(parts + [p]) == TrimAll(parts) + [Trim(p)]
  {
  }

  /** One more part at the end of a comment adds what that part says. */
  lemma ParseMore(c: string, p: string)
    requires |c| > 0 && Trimmed(c) && IsPart(p)
    ensures Parse(c + ";" + p) == match Parse(c) case None => None case Some(m) => Some(ParsePart(m, p))
  {
    var text := c + ";" + p;
    TrimTrims(text);
    TrimTrims(c);
    TrimTrims(p);
    SplitSnoc(c, ';', p);
    TrimAllSnoc(Split(c, ';'), p);
    var parts := TrimAll(Split(c, ';'));
    assert (parts + [p])[1..] == parts[1..] + [p];
    ParseSnoc(parts[1..], p);
  }

  /** A part sets the one field that its key names, whatever the case of the key; parts without a value and parts with other
      keys say nothing. */
  lemma PartMeans(m: Managed, part: string)
    ensures var n := FirstOf(part, '=');
            var key := Lower(Trim(part[..n]));
            var value := if n < |part| then Trim(part[n + 1..]) else "";
            var r := ParsePart(m, part);
            && r.node == (if key == "sourcenode" && |value| > 0 then value else m.node)
            && r.scope == (if key == "scope" && |value| > 0 then value else m.scope)
            && r.ip == (if key == "ip" && |value| > 0 then value else m.ip)
            && r.host == (if key == "host" && |value| > 0 then value else m.host)
            && r.mac == (if key == "mac" && |value| > 0 then value else m.mac)
  {
    DifferentKeys();
  }

  lemma DifferentKeys()
    ensures "sourcenode" != "scope" && "sourcenode" != "ip" && "sourcenode" != "host" && "sourcenode" != "mac"
    ensures "scope" != "ip" && "scope" != "host" && "scope" != "mac"
    ensures "ip" != "host" && "ip" != "mac" && "host" != "mac"
  {
    assert |"sourcenode"| == 10 && |"scope"| == 5 && |"host"| == 4 && |"mac"| == 3 && |"ip"| == 2;
  }

  /** A printed comment has one part for the prefix, two for node and scope, and one for each further value there is. */
  lemma BuiltPartCount(m: Managed)
    requires AllPlain(m)
    ensures |Split(Build(m), ';')| ==
            3 + (if m.ip == "" then 0 else 1) + (if m.host == "" then 0 else 1) + (if m.mac == "" then 0 else 1)
  {
    FieldsAreParts(m);
    SplitOfJoin([PREFIX] + Fields(m), "");
    assert "" + Build(m) == Build(m);
  }

  // ---- the service's loops -----------------------------------------------------------------------------------

  lemma {:induction false} JoinSnoc(parts: seq<string>, p: string)
    requires |parts| > 0
    ensures JoinParts(parts + [p]) == JoinParts(parts) + "; " + p
  {
    if |parts| > 1 {
      JoinSnoc(parts[1..], p);
      assert (parts + [p])[1..] == parts[1..] + [p];
      JoinGroups(parts[0], JoinParts(parts[1..]), p);
    } else {
      assert (parts + [p])[1..] == [p];
      JoinGroups(parts[0], "", p);
    }
  }

  lemma JoinGroups(a: string, b: string, c: string)
    ensures a + ";" + (" " + (b + "; " + c)) == (a + ";" + (" " + b)) + "; " + c
    ensures a + ";" + (" " + c) == a + "; " + c
  {
  }

  lemma PartsInOrder(p: string, a: string, b: string, c: seq<string>, d: seq<string>, e: seq<string>)
    ensures [p] + ([a, b] + c + d + e) == [p, a, b] + c + d + e
    ensures |c| == 0 ==> [p, a, b] + c == [p, a, b]
    ensures |d| == 0 ==> [p, a, b] + c + d == [p, a, b] + c
    ensures |e| == 0 ==> [p, a, b] + c + d + e == [p, a, b] + c + d
  {
  }

  method BuildManagedComment(m: Managed) returns (comment: string)
    ensures comment == Build(m)
  {
    var parts := [PREFIX, Field("sourceNode", m.node), Field("scope", m.scope)];
    if |m.ip| > 0 {
      parts := parts + [Field("ip", m.ip)];
    }
    if |m.host| > 0 {
      parts := parts + [Field("host", m.host)];
    }
    if |m.mac| > 0 {
      parts := parts + [Field("mac", m.mac)];
    }
    PartsInOrder(PREFIX, Field("sourceNode", m.node), Field("scope", m.scope),
                 Optional("ip", m.ip), Optional("host", m.host), Optional("mac", m.mac));
    comment := parts[0];
    var i := 1;
    while i < |parts|
      invariant 1 <= i <= |parts|
      invariant comment == JoinParts(parts[..i])
    {
      JoinSnoc(parts[..i], parts[i]);
      assert parts[..i] + [parts[i]] == parts[..i + 1];
      comment := comment + "; " + parts[i];
      i := i + 1;
    }
    assert parts[..i] == parts;
  }

  method ParseManagedComment(comment: string) returns (parsed: Option<Managed>)
    ensures parsed == Parse(comment)
  {
    var raw := Trim(comment);
    if |raw| == 0 {
      return None;
    }
    var parts := TrimAll(Split(raw, ';'));
    if Lower(parts[0]) != Lower(PREFIX) {
      return None;
    }
    var fields := parts[1..];
    var m := Managed("", "", "", "", "");
    var i := 0;
    while i < |fields|
      invariant 0 <= i <= |fields|
      invariant m == ParseParts(fields[..i])
    {
      ParseSnoc(fields[..i], fields[i]);
      assert fields[..i] + [fields[i]] == fields[..i + 1];
      m := ParsePart(m, fields[i]);
      i := i + 1;
    }
    assert fields[..i] == fields;
    return Some(m);
  }
}
