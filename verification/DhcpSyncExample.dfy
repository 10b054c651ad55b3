/** Two scopes with the same address: a suppressed delete comes back at the next preview. */
module DhcpSyncExample {
  import opened Options
  import opened ManagedComment
  import opened Sequences
  import opened DhcpSyncModel
  import opened DhcpSyncOwnership
  import opened DhcpSyncConvergence
  import opened DhcpSyncDeletes
  import opened DhcpSyncTheorems

  const NAMES := Names((host, zone, ip) => Key(zone, host, "A"), ip => Some(Key("r", ip, "PTR")))
  const REQUEST := Request(true, 0, 0)

  /** One address in two scopes, under two host names. */
  const FIRST := Desired(Lease("n", "s", "i"), "a", "a.z", "m", "z")
  const SECOND := Desired(Lease("n", "t", "i"), "b", "b.z", "m", "z")

  function Forward(d: Desired, value: string): Item {
    Item(Key(d.zone, d.host, "A"), d.lease, d.host, d.mac, value)
  }

  function Reverse(d: Desired, value: string): Item {
    Item(Key("r", d.lease.ip, "PTR"), d.lease, d.host, d.mac, value)
  }

  /** The second host name has a record of somebody else. */
  const START := State(map[Key("z", "b", "A") := [Rec("x", "")]], map[])

  function Created(i: Item): Planned {
    Planned(CreateRecord, i, "")
  }

  const CREATES := [Created(Forward(FIRST, "i")), Created(Reverse(FIRST, "a.z")),
                    Planned(Conflict, Forward(SECOND, "i"), "x"), Created(Reverse(SECOND, "b.z"))]

  /** Both leases are live, and nothing has been written yet. */
  const ARRIVAL := Run([FIRST, SECOND], [], REQUEST, NAMES, {}, CREATES, [FIRST, SECOND], {})

  const DELETES := [Planned(DeleteRecord, Forward(FIRST, ""), "i"), Planned(DeleteRecord, Reverse(FIRST, ""), "a.z")]

  /** Both are gone. */
  const DEPARTURE := Run([], [FIRST.lease, SECOND.lease], REQUEST, NAMES, {}, DELETES, [], {})

  /** What the first run writes: an address record and two PTR records. */
  function Arrived(f: Rec, g: Rec, h: Rec): State {
    State(map[Key("z", "a", "A") := [f], Key("r", "i", "PTR") := [g, h], Key("z", "b", "A") := [Rec("x", "")]],
          map[FIRST.lease := Seen("a", "m", "z", 0), SECOND.lease := Seen("b", "m", "z", 0)])
  }

  /** Their values and comments. */
  ghost predicate Written(f: Rec, g: Rec, h: Rec) {
    && f.value == "i" && g.value == "a.z" && h.value == "b.z"
    && OnlyFor(f, FIRST.lease) && OnlyFor(g, FIRST.lease) && OnlyFor(h, SECOND.lease)
  }

  const ADDRESS := Own(Forward(FIRST, "i"))
  const FIRST_PTR := Own(Reverse(FIRST, "a.z"))
  const SECOND_PTR := Own(Reverse(SECOND, "b.z"))
  const ARRIVED := Arrived(ADDRESS, FIRST_PTR, SECOND_PTR)

  lemma CommentsThen()
    ensures Written(ADDRESS, FIRST_PTR, SECOND_PTR)
  {
    OwnIsOnlyFor(Forward(FIRST, "i"));
    OwnIsOnlyFor(Reverse(FIRST, "a.z"));
    OwnIsOnlyFor(Reverse(SECOND, "b.z"));
  }

  lemma ForeignComment(lease: Lease)
    ensures !ManagedFor(Rec("x", ""), lease)
  {
  }

  lemma ItemsThen()
    ensures Items([FIRST, SECOND], REQUEST, NAMES)
         == [Forward(FIRST, "i"), Reverse(FIRST, "a.z"), Forward(SECOND, "i"), Reverse(SECOND, "b.z")]
  {
    assert [FIRST, SECOND][..1] == [FIRST];
    assert [FIRST][..0] == [];
    assert Items([], REQUEST, NAMES) == [];
    assert Items([FIRST], REQUEST, NAMES) == ItemsOf(FIRST, REQUEST, NAMES);
  }

  lemma ArrivalPlan()
    ensures Succeeds(START, ARRIVAL)
  {
    ItemsThen();
    AllReadable(START.zones);
    ForeignComment(SECOND.lease);
    var items := ItemsOfRun(ARRIVAL);
    assert Diffs(items, START.zones) == CREATES;
    assert PlanOf(START, ARRIVAL) == CREATES;
  }

  lemma ArrivalRows()
    ensures MarkSeen(map[], [FIRST, SECOND], 0) == ARRIVED.rows
  {
    assert [FIRST, SECOND][..1] == [FIRST];
    assert [FIRST][..0] == [];
    assert MarkSeen(map[], [], 0) == map[];
    assert MarkSeen(map[], [FIRST], 0) == map[FIRST.lease := Seen("a", "m", "z", 0)];
    assert MarkSeen(map[], [FIRST, SECOND], 0) == MarkSeen(map[], [FIRST], 0)[SECOND.lease := Seen("b", "m", "z", 0)];
  }

  lemma ExecuteSnoc(zones: Zones, plan: seq<Planned>, p: Planned)
    ensures Execute(zones, plan + [p], {}) == var before := Execute(zones, plan, {});
                                              before[p.item.key := Write(At(before, p.item.key), p)]
  {
    InitOfAppend(plan, p);
  }

  lemma ExecuteTwo(zones: Zones, p: Planned, q: Planned)
    ensures Execute(zones, [p, q], {}) == var before := zones[p.item.key := Write(At(zones, p.item.key), p)];
                                          before[q.item.key := Write(At(before, q.item.key), q)]
  {
    assert [] + [p] == [p] && [p] + [q] == [p, q];
    ExecuteSnoc(zones, [], p);
    ExecuteSnoc(zones, [p], q);
  }

  lemma ArrivalZones()
    ensures Execute(START.zones, CREATES, {}) == ARRIVED.zones
  {
    var two, three := [CREATES[0], CREATES[1]], [CREATES[0], CREATES[1], CREATES[2]];
    assert two + [CREATES[2]] == three && three + [CREATES[3]] == CREATES;
    ExecuteTwo(START.zones, CREATES[0], CREATES[1]);
    ExecuteSnoc(START.zones, two, CREATES[2]);
    ExecuteSnoc(START.zones, three, CREATES[3]);
    var zones := Execute(START.zones, CREATES, {});
    assert zones.Keys == ARRIVED.zones.Keys;
    assert zones[Key("z", "a", "A")] == [ADDRESS];
    assert zones[Key("z", "b", "A")] == [Rec("x", "")];
    assert zones[Key("r", "i", "PTR")] == [FIRST_PTR, SECOND_PTR];
    assert zones == ARRIVED.zones;
  }

  /** All writes of the first run succeed. */
  lemma ArrivalStep()
    ensures Succeeds(START, ARRIVAL) && Step(START, ARRIVAL) == ARRIVED
  {
    ArrivalPlan();
    ArrivalRows();
    ArrivalZones();
    assert RemovedLeases(CREATES, {}) == {};
  }

  // ---- the second run ------------------------------------------------------------------------------------------

  const STALE := [Forward(FIRST, ""), Reverse(FIRST, ""), Forward(SECOND, ""), Reverse(SECOND, "")]

  lemma StaleThen()
    ensures Candidates(DEPARTURE.order, ARRIVED.rows, REQUEST, NAMES, {}) == STALE
    ensures Candidates([SECOND.lease], ARRIVED.rows, REQUEST, NAMES, {}) == STALE[2..]
  {
    var order, rows := DEPARTURE.order, ARRIVED.rows;
    assert order[..1] == [FIRST.lease] && order[..1][..0] == [] && [SECOND.lease][..0] == [];
    assert StaleItems(FIRST.lease, rows[FIRST.lease], REQUEST, NAMES, {}) == STALE[..2];
    assert StaleItems(SECOND.lease, rows[SECOND.lease], REQUEST, NAMES, {}) == STALE[2..];
    assert Candidates([], rows, REQUEST, NAMES, {}) == [];
    assert Candidates(order[..1], rows, REQUEST, NAMES, {}) == STALE[..2];
  }

  lemma OwnedOfOne(r: Rec, lease: Lease)
    ensures Owned([r], lease) == if ManagedFor(r, lease) then [r] else []
  {
    assert [r][..0] == [] && Owned([], lease) == [];
  }

  lemma OwnedOfTwo(a: Rec, b: Rec, lease: Lease)
    requires ManagedFor(a, lease) != ManagedFor(b, lease)
    ensures Owned([a, b], lease) == [if ManagedFor(a, lease) then a else b]
  {
    assert [a, b][..1] == [a];
    OwnedOfOne(a, lease);
  }

  lemma OneMatches(zones: Zones, c: Item, r: Rec)
    requires At(zones, c.key) == [r]
    ensures Matches(zones, c) <==> ManagedFor(r, c.lease)
    ensures Matches(zones, c) ==> DeleteOf(zones, c) == Planned(DeleteRecord, c, r.value)
  {
    OwnedOfOne(r, c.lease);
  }

  lemma OneOfTwoMatches(zones: Zones, c: Item, a: Rec, b: Rec)
    requires At(zones, c.key) == [a, b] && ManagedFor(a, c.lease) != ManagedFor(b, c.lease)
    ensures Matches(zones, c)
    ensures DeleteOf(zones, c) == Planned(DeleteRecord, c, if ManagedFor(a, c.lease) then a.value else b.value)
  {
    OwnedOfTwo(a, b, c.lease);
  }

  lemma ArrivedAt(f: Rec, g: Rec, h: Rec)
    ensures var zones := Arrived(f, g, h).zones;
            && At(zones, STALE[0].key) == [f] && At(zones, STALE[1].key) == [g, h]
            && At(zones, STALE[2].key) == [Rec("x", "")] && At(zones, STALE[3].key) == [g, h]
  {
  }

  lemma StaleMatches(f: Rec, g: Rec, h: Rec)
    requires Written(f, g, h)
    ensures var zones := Arrived(f, g, h).zones;
            && Matches(zones, STALE[0]) && Matches(zones, STALE[1]) && !Matches(zones, STALE[2]) && Matches(zones, STALE[3])
            && DeleteOf(zones, STALE[0]) == DELETES[0] && DeleteOf(zones, STALE[1]) == DELETES[1]
  {
    var zones := Arrived(f, g, h).zones;
    ArrivedAt(f, g, h);
    ForeignComment(SECOND.lease);
    OneMatches(zones, STALE[0], f);
    OneOfTwoMatches(zones, STALE[1], g, h);
    OneMatches(zones, STALE[2], Rec("x", ""));
    OneOfTwoMatches(zones, STALE[3], g, h);
  }

  /** Four candidates of which the third does not match and the fourth has the second one's owner and ip. */
  lemma TwoDeletes(zones: Zones, a: Item, b: Item, c: Item, d: Item)
    requires Matches(zones, a) && Matches(zones, b) && !Matches(zones, c)
    requires a.key != b.key && SameDelete(b, d)
    ensures Deletes([a, b, c, d], zones) == [DeleteOf(zones, a), DeleteOf(zones, b)]
  {
    NextCandidate([], a, zones);
    NextCandidate([a], b, zones);
    NextCandidate([a, b], c, zones);
    NextCandidate([a, b, c], d, zones);
    assert [] + [a] == [a] && [a] + [b] == [a, b] && [a, b] + [c] == [a, b, c] && [a, b, c] + [d] == [a, b, c, d];
    var deletes := [DeleteOf(zones, a), DeleteOf(zones, b)];
    assert Deletes([a, b], zones) == deletes;
    assert deletes[1] in deletes;
  }

  lemma DepartureCandidates(f: Rec, g: Rec, h: Rec)
    ensures ItemsOfRun(DEPARTURE) == [] && CandidatesOf(Arrived(f, g, h), DEPARTURE) == STALE
  {
    StaleThen();
    assert Keys([]) == {};
  }

  /** Of the two PTR deletes only the first lease's is planned. */
  lemma DeparturePlan(f: Rec, g: Rec, h: Rec)
    requires Written(f, g, h)
    ensures Succeeds(Arrived(f, g, h), DEPARTURE)
  {
    var st := Arrived(f, g, h);
    DepartureCandidates(f, g, h);
    StaleMatches(f, g, h);
    AllReadable(st.zones);
    TwoDeletes(st.zones, STALE[0], STALE[1], STALE[2], STALE[3]);
    assert STALE == [STALE[0], STALE[1], STALE[2], STALE[3]];
    assert PlanOf(st, DEPARTURE) == DELETES;
  }

  lemma SecondIsLeftBehind(f: Rec, g: Rec, h: Rec)
    requires Written(f, g, h)
    ensures |CandidatesOf(Arrived(f, g, h), DEPARTURE)| == 4 && LeftBehind(Arrived(f, g, h), DEPARTURE, 3)
  {
    DepartureCandidates(f, g, h);
    StaleMatches(f, g, h);
    assert SameDelete(STALE[1], STALE[3]);
    assert forall p :: p in DELETES ==> p.item.lease == FIRST.lease;
  }

  lemma ArrivedIsDistinct(f: Rec, g: Rec, h: Rec)
    requires Written(f, g, h)
    ensures AllDistinct(Arrived(f, g, h).zones)
  {
    forall key ensures Distinct(At(Arrived(f, g, h).zones, key)) {
    }
  }

  lemma DepartureLeases()
    ensures NoDuplicates(DEPARTURE.order) && Typed(NAMES) && ListsLater(DEPARTURE, [SECOND.lease])
  {
  }

  lemma DepartureSurvivors(st: State)
    ensures ListsSurvivors(st, DEPARTURE, [SECOND.lease])
  {
    assert Deleted(DELETES, {}, 0) && FirstAt(DELETES, DELETES[0].item.key) == 0;
    assert FIRST.lease in RemovedLeases(DELETES, {});
  }

  /** From an empty table two successful runs lead to a state whose next preview plans one more delete. */
  lemma SuppressedDeleteComesBack()
    ensures Succeeds(START, ARRIVAL) && Succeeds(Step(START, ARRIVAL), DEPARTURE)
    ensures PlansDelete(PlanAfter(Step(START, ARRIVAL), DEPARTURE, [SECOND.lease]))
  {
    ArrivalStep();
    CommentsThen();
    DeparturePlan(ADDRESS, FIRST_PTR, SECOND_PTR);
    SecondIsLeftBehind(ADDRESS, FIRST_PTR, SECOND_PTR);
    ArrivedIsDistinct(ADDRESS, FIRST_PTR, SECOND_PTR);
    DepartureLeases();
    DepartureSurvivors(ARRIVED);
    DeletesAgainIff(ARRIVED, DEPARTURE, [SECOND.lease]);
  }
}
