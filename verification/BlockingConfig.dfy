/** The part of an Advanced Blocking configuration that the DNS schedule evaluator reads and rewrites. */
module BlockingConfig {
  import opened Sequences

  datatype Action = Block | Allow

  /** Identity of one thing the evaluator writes: a (group, action, domain) triple. */
  datatype Entry = Entry(group: string, action: Action, domain: string)

  /** `settings` stands for every other field of the group object. */
  datatype Group = Group(name: string, blocked: seq<string>, allowed: seq<string>, settings: map<string, string>) {
    function List(a: Action): seq<string> {
      match a
      case Block => blocked
      case Allow => allowed
    }
  }

  datatype Config = Config(groups: seq<Group>, settings: map<string, string>)

  /** `groups.findIndex(g => g.name === name)` */
  function IndexOf(groups: seq<Group>, name: string): (i: int)
    ensures -1 <= i < |groups|
    ensures i >= 0 ==> groups[i].name == name && forall j :: 0 <= j < i ==> groups[j].name != name
    ensures i < 0 ==> forall j :: 0 <= j < |groups| ==> groups[j].name != name
  {
    if groups == [] then -1
    else if groups[0].name == name then 0
    else
      var i := IndexOf(groups[1..], name);
      if i < 0 then -1 else i + 1
  }

  /** Only the first group of a given name is ever read or rewritten. */
  predicate IsFirst(groups: seq<Group>, i: nat)
    requires i < |groups|
  {
    IndexOf(groups, groups[i].name) == i
  }

  predicate IsLive(t: Entry, groups: seq<Group>) {
    var i := IndexOf(groups, t.group);
    i >= 0 && t.domain in groups[i].List(t.action)
  }

  ghost function Live(groups: seq<Group>): set<Entry> {
    set i, a, d | 0 <= i < |groups| && a in {Block, Allow} && d in groups[i].List(a) && IsFirst(groups, i)
      :: Entry(groups[i].name, a, d)
  }

  lemma LiveIff(groups: seq<Group>, t: Entry)
    ensures t in Live(groups) <==> IsLive(t, groups)
  {
    if IsLive(t, groups) {
      var i := IndexOf(groups, t.group);
      assert IsFirst(groups, i) && t.action in {Block, Allow} && t.domain in groups[i].List(t.action);
    }
  }

  /** Names, order, and all fields other than the two lists agree. */
  ghost predicate SameShape(a: seq<Group>, b: seq<Group>) {
    |a| == |b| && forall i :: 0 <= i < |a| ==> a[i].name == b[i].name && a[i].settings == b[i].settings
  }

  lemma {:induction false} SameShapeSameIndex(a: seq<Group>, b: seq<Group>, name: string)
    requires SameShape(a, b)
    ensures IndexOf(a, name) == IndexOf(b, name)
  {
    var i, j := IndexOf(a, name), IndexOf(b, name);
    if i >= 0 { assert b[i].name == name; }
    if j >= 0 { assert a[j].name == name; }
  }

  // ---- removal -------------------------------------------------------------------------------

  /** The domains that `gone` strips from one list of one group. */
  function DomainsIn(gone: set<Entry>, name: string, a: Action): (ds: set<string>)
    ensures forall d :: d in ds <==> Entry(name, a, d) in gone
  {
    var ds := set t | t in gone && t.group == name && t.action == a :: t.domain;
    assert forall d :: Entry(name, a, d) in gone ==> d in ds by {
      forall d | Entry(name, a, d) in gone ensures d in ds {
        var t := Entry(name, a, d);
        assert t in gone && t.group == name && t.action == a && t.domain == d;
      }
    }
    ds
  }

  function StripGroup(g: Group, gone: set<Entry>): Group {
    g.(blocked := Without(g.blocked, DomainsIn(gone, g.name, Block)),
       allowed := Without(g.allowed, DomainsIn(gone, g.name, Allow)))
  }

  function Strip(groups: seq<Group>, gone: set<Entry>): (r: seq<Group>)
    ensures SameShape(groups, r)
  {
    seq(|groups|, i requires 0 <= i < |groups| =>
      if IsFirst(groups, i) then StripGroup(groups[i], gone) else groups[i])
  }

  lemma StripLive(groups: seq<Group>, gone: set<Entry>)
    ensures Live(Strip(groups, gone)) == Live(groups) - gone
  {
    var r := Strip(groups, gone);
    forall t ensures t in Live(r) <==> t in Live(groups) && t !in gone {
      LiveIff(groups, t);
      LiveIff(r, t);
      SameShapeSameIndex(groups, r, t.group);
      var i := IndexOf(groups, t.group);
      if i >= 0 {
        assert IsFirst(groups, i) && r[i] == StripGroup(groups[i], gone);
        assert t.domain in DomainsIn(gone, t.group, t.action) <==> Entry(t.group, t.action, t.domain) in gone;
      }
    }
  }

  /** A strip rewrites the configuration exactly when it takes a live entry away. */
  lemma StripChangesIffLive(groups: seq<Group>, gone: set<Entry>)
    ensures Strip(groups, gone) == groups <==> Live(groups) !! gone
  {
    StripLive(groups, gone);
    var r := Strip(groups, gone);
    if Live(groups) !! gone {
      forall i | 0 <= i < |groups| ensures r[i] == groups[i] {
        if IsFirst(groups, i) {
          forall a, d | d in groups[i].List(a) ensures d !in DomainsIn(gone, groups[i].name, a) {
            LiveIff(groups, Entry(groups[i].name, a, d));
          }
          assert forall d :: d in groups[i].List(Block) ==> d !in DomainsIn(gone, groups[i].name, Block);
          assert forall d :: d in groups[i].List(Allow) ==> d !in DomainsIn(gone, groups[i].name, Allow);
          WithoutDisjoint(groups[i].blocked, DomainsIn(gone, groups[i].name, Block));
          WithoutDisjoint(groups[i].allowed, DomainsIn(gone, groups[i].name, Allow));
        }
      }
      assert r == groups;
    }
  }

  // ---- additions -----------------------------------------------------------------------------

  /** The bucket of a `groupBy`: domains of the entries for one list of one group, in order. */
  function DomainsOf(ts: seq<Entry>, name: string, a: Action): (ds: seq<string>)
    ensures forall d :: d in ds <==> Entry(name, a, d) in ts
  {
    if ts == [] then []
    else
      var init, last := ts[..|ts| - 1], ts[|ts| - 1];
      assert ts == init + [last];
      DomainsOf(init, name, a) + (if last.group == name && last.action == a then [last.domain] else [])
  }

  function ExtendGroup(g: Group, added: seq<Entry>): Group {
    g.(blocked := g.blocked + DomainsOf(added, g.name, Block),
       allowed := g.allowed + DomainsOf(added, g.name, Allow))
  }

  function Extend(groups: seq<Group>, added: seq<Entry>): (r: seq<Group>)
    ensures SameShape(groups, r)
  {
    seq(|groups|, i requires 0 <= i < |groups| =>
      if IsFirst(groups, i) then ExtendGroup(groups[i], added) else groups[i])
  }

  lemma ExtendLiveAt(groups: seq<Group>, added: seq<Entry>, t: Entry)
    requires IndexOf(groups, t.group) >= 0
    ensures IsLive(t, Extend(groups, added)) <==> IsLive(t, groups) || t in added
  {
    var r, i := Extend(groups, added), IndexOf(groups, t.group);
    SameShapeSameIndex(groups, r, t.group);
    assert IsFirst(groups, i) && r[i] == ExtendGroup(groups[i], added);
    assert t.domain in DomainsOf(added, t.group, t.action) <==> Entry(t.group, t.action, t.domain) in added;
  }

  lemma ExtendLive(groups: seq<Group>, added: seq<Entry>)
    requires forall t :: t in added ==> IndexOf(groups, t.group) >= 0
    ensures Live(Extend(groups, added)) == Live(groups) + ToSet(added)
  {
    var r := Extend(groups, added);
    forall t ensures t in Live(r) <==> t in Live(groups) || t in added {
      LiveIff(groups, t);
      LiveIff(r, t);
      if IndexOf(groups, t.group) >= 0 {
        ExtendLiveAt(groups, added, t);
      } else {
        SameShapeSameIndex(groups, r, t.group);
      }
    }
  }

  lemma ExtendNothing(groups: seq<Group>)
    ensures Extend(groups, []) == groups
  {
    var r := Extend(groups, []);
    forall i | 0 <= i < |groups| ensures r[i] == groups[i] {
      assert groups[i].blocked + [] == groups[i].blocked && groups[i].allowed + [] == groups[i].allowed;
    }
  }

  // ---- what strips and additions leave alone ---------------------------------------------------

  lemma IsFirstFrame(a: seq<Group>, b: seq<Group>, i: nat)
    requires SameShape(a, b) && i < |a|
    ensures IsFirst(a, i) <==> IsFirst(b, i)
  {
    SameShapeSameIndex(a, b, a[i].name);
  }

  lemma DomainsInMono(a: set<Entry>, b: set<Entry>, name: string, act: Action)
    requires a <= b
    ensures DomainsIn(a, name, act) <= DomainsIn(b, name, act)
  {
    forall d | d in DomainsIn(a, name, act) ensures d in DomainsIn(b, name, act) {
      assert Entry(name, act, d) in a;
    }
  }

  lemma StripTwice(groups: seq<Group>, a: set<Entry>, b: set<Entry>)
    requires a <= b
    ensures Strip(Strip(groups, a), b) == Strip(groups, b)
  {
    var r := Strip(groups, a);
    forall i | 0 <= i < |groups| ensures Strip(r, b)[i] == Strip(groups, b)[i] {
      IsFirstFrame(groups, r, i);
      if IsFirst(groups, i) {
        var n := groups[i].name;
        DomainsInMono(a, b, n, Block);
        DomainsInMono(a, b, n, Allow);
        WithoutTwice(groups[i].blocked, DomainsIn(a, n, Block), DomainsIn(b, n, Block));
        WithoutTwice(groups[i].allowed, DomainsIn(a, n, Allow), DomainsIn(b, n, Allow));
      }
    }
  }

  lemma WithoutExtended(list: seq<string>, added: seq<Entry>, b: set<Entry>, name: string, act: Action)
    requires forall t :: t in added ==> t in b
    ensures Without(list + DomainsOf(added, name, act), DomainsIn(b, name, act)) == Without(list, DomainsIn(b, name, act))
  {
    WithoutConcat(list, DomainsOf(added, name, act), DomainsIn(b, name, act));
    WithoutAll(DomainsOf(added, name, act), DomainsIn(b, name, act));
  }

  lemma StripExtended(groups: seq<Group>, added: seq<Entry>, b: set<Entry>)
    requires forall t :: t in added ==> t in b
    ensures Strip(Extend(groups, added), b) == Strip(groups, b)
  {
    var r := Extend(groups, added);
    forall i | 0 <= i < |groups| ensures Strip(r, b)[i] == Strip(groups, b)[i] {
      IsFirstFrame(groups, r, i);
      if IsFirst(groups, i) {
        WithoutExtended(groups[i].blocked, added, b, groups[i].name, Block);
        WithoutExtended(groups[i].allowed, added, b, groups[i].name, Allow);
      }
    }
  }
}
