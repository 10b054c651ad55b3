/** Ticks in which loads and writes fail: what is still in the configuration stays tracked, and what is tracked anew is in
    the configuration. */
module ScheduleFaults {
  import opened Sequences
  import opened BlockingConfig
  import opened ScheduleModel
  import opened ScheduleEffects
  import opened ScheduleTrace
  import opened ScheduleTick

  // ---- nothing that stays is forgotten -----------------------------------------------------------------

  /** `id` tracks `t`, or nobody has to. */
  ghost predicate Remembered(st: State, id: string, t: Entry) {
    t in st.Tracked(id) || t !in Live(st.Groups())
  }

  lemma VisitRemembers(a: State, s: Source, p: set<Entry>, faults: Faults, b: State, id: string, t: Entry)
    requires VisitedUnder(a, s, p, faults, b) && (s.Active() ==> Wants(s) <= p)
    requires t !in p && Remembered(a, id, t)
    ensures Remembered(b, id, t)
  {
  }

  lemma StepRemembers(sts: seq<State>, v: seq<Source>, p: set<Entry>, faults: Faults, id: string, t: Entry, n: nat)
    requires Trace(sts, v, p, faults) && n < |v| && (v[n].Active() ==> Wants(v[n]) <= p)
    requires t !in p && Remembered(sts[n], id, t)
    ensures Remembered(sts[n + 1], id, t)
  {
    VisitRemembers(sts[n], v[n], p, faults, sts[n + 1], id, t);
  }

  lemma {:induction false} TraceRemembers(sts: seq<State>, v: seq<Source>, p: set<Entry>, faults: Faults,
                                          id: string, t: Entry, n: nat)
    requires Trace(sts, v, p, faults) && n <= |v|
    requires forall k :: 0 <= k < |v| && v[k].Active() ==> Wants(v[k]) <= p
    requires t !in p && Remembered(sts[0], id, t)
    ensures Remembered(sts[n], id, t)
    decreases n
  {
    if n > 0 {
      TraceRemembers(sts, v, p, faults, id, t, n - 1);
      StepRemembers(sts, v, p, faults, id, t, n - 1);
    }
  }

  /** Whatever fails in a tick: a tracked entry that no active source wants and that is still in the configuration
      afterwards is still tracked, so that its removal is tried again. */
  lemma NothingLiveIsForgotten(st: State, sources: seq<Source>, rows: seq<string>, faults: Faults, id: string, t: Entry)
    requires WellFormed(st, sources) && Enumerates(rows, st.applied)
    requires t in st.Tracked(id) && t !in Protected(sources)
    ensures var st' := Tick(st, sources, rows, faults); t in Live(st'.Groups()) ==> t in st'.Tracked(id)
  {
    var sts, _, v := TickTrace(st, sources, rows, faults);
    forall k, u | 0 <= k < |v| && v[k].Active() && u in Wants(v[k]) ensures u in Protected(sources) {
      assert v[k] in v;
      ProtectedIff(sources, u);
    }
    TraceRemembers(sts, v, Protected(sources), faults, id, t, |v|);
  }

  // ---- nothing is tracked that is not there --------------------------------------------------------------

  /** `u` is applied and drops `t`, which it tracked before the tick. */
  ghost predicate Takes(st: State, u: Source, t: Entry) {
    u.Active() && t in st.Tracked(u.id) && t !in Wants(u)
  }

  lemma TracePart(sts: seq<State>, v: seq<Source>, p: set<Entry>, faults: Faults, n: nat)
    requires Trace(sts, v, p, faults) && n <= |v|
    ensures Trace(sts[..n + 1], v[..n], p, faults)
  {
    forall k | 0 <= k < n ensures VisitedUnder(sts[..n + 1][k], v[..n][k], p, faults, sts[..n + 1][k + 1]) {
      assert VisitedUnder(sts[k], v[k], p, faults, sts[k + 1]);
    }
  }

  lemma TraceRest(sts: seq<State>, v: seq<Source>, p: set<Entry>, faults: Faults, n: nat)
    requires Trace(sts, v, p, faults) && n <= |v|
    ensures Trace(sts[n..], v[n..], p, faults)
  {
    forall k | 0 <= k < |v| - n ensures VisitedUnder(sts[n..][k], v[n..][k], p, faults, sts[n..][k + 1]) {
      assert VisitedUnder(sts[n + k], v[n + k], p, faults, sts[n + k + 1]);
    }
  }

  /** Before and after its own visit a source's rows are those of the tick's start and end. */
  lemma RowsAround(sts: seq<State>, v: seq<Source>, p: set<Entry>, faults: Faults, n: nat)
    requires Trace(sts, v, p, faults) && DistinctIds(v) && n < |v|
    ensures sts[n].Tracked(v[n].id) == sts[0].Tracked(v[n].id)
    ensures v[n].id in sts[n].applied <==> v[n].id in sts[0].applied
    ensures sts[|v|].Tracked(v[n].id) == sts[n + 1].Tracked(v[n].id)
    ensures v[n].id in sts[|v|].applied <==> v[n].id in sts[n + 1].applied
  {
    TracePart(sts, v, p, faults, n);
    UnvisitedKeepsRows(sts[..n + 1], v[..n], p, faults, v[n].id);
    TraceRest(sts, v, p, faults, n + 1);
    UnvisitedKeepsRows(sts[n + 1..], v[n + 1..], p, faults, v[n].id);
  }

  /** What leaves the configuration from one visit to the end of the tick was taken by a later visit. */
  lemma {:induction false} TakenLater(sts: seq<State>, v: seq<Source>, p: set<Entry>, faults: Faults, t: Entry, n: nat)
    returns (k: nat)
    requires Trace(sts, v, p, faults) && n <= |v| && t in Live(sts[n].Groups()) && t !in Live(sts[|v|].Groups())
    ensures n <= k < |v| && t in Stripped(sts[k], v[k], p) && !Fails(sts[k], v[k], p, faults)
    decreases |v| - n
  {
    if n < |v| {
      assert VisitedUnder(sts[n], v[n], p, faults, sts[n + 1]);
      if t in Live(sts[n + 1].Groups()) {
        k := TakenLater(sts, v, p, faults, t, n + 1);
      } else {
        k := n;
      }
    }
  }

  lemma {:induction false} RotationKeepsOrder(sources: seq<Source>, i: nat, j: nat) returns (i': nat, j': nat)
    requires i <= j < |Rotation(sources)|
    ensures i' <= j' < |sources| && sources[i'] == Rotation(sources)[i] && sources[j'] == Rotation(sources)[j]
    ensures i < j ==> i' < j'
  {
    var m := |sources| - 1;
    var init := sources[..m];
    if j < |Rotation(init)| {
      i', j' := RotationKeepsOrder(init, i, j);
    } else if i < j {
      var l;
      i', l := RotationKeepsOrder(init, i, i);
      j' := m;
    } else {
      i', j' := m, m;
    }
  }

  lemma SameIdSamePlace(sources: seq<Source>, i: nat, j: nat)
    requires DistinctIds(sources) && i < |sources| && j < |sources| && sources[i].id == sources[j].id
    ensures i == j
  {
  }

  /** A later visit that takes what an active source wants is the apply of a source that comes later in the list. */
  lemma TakerComesLater(st: State, sources: seq<Source>, va: seq<Source>, v: seq<Source>, i: nat, n: nat, k: nat)
    returns (j: nat)
    requires DistinctIds(sources) && i < |sources| && v == va + Rotation(sources) && n < k < |v|
    requires v[n] == sources[i] && forall s :: s in va ==> !s.inRotation
    requires sources[i].inRotation
    ensures i < j < |sources| && sources[j] == v[k]
  {
    assert forall k :: 0 <= k < |va| ==> v[k] == va[k] && !va[k].inRotation;
    var i';
    i', j := RotationKeepsOrder(sources, n - |va|, k - |va|);
    SameIdSamePlace(sources, i, i');
  }

  /** Whatever fails in a tick: if what a source tracks has become anything but empty, then it is what the source wants,
      the source is active with all its groups, and each of its entries is in the configuration unless a source later in
      the list, whose apply went through, had tracked it and dropped it. */
  lemma NewlyTrackedIsLiveOrTaken(st: State, sources: seq<Source>, rows: seq<string>, faults: Faults, i: nat, t: Entry)
    requires WellFormed(st, sources) && Enumerates(rows, st.applied) && i < |sources|
    requires var st', id := Tick(st, sources, rows, faults), sources[i].id;
             st'.Tracked(id) != st.Tracked(id) && t in st'.Tracked(id)
    ensures var st', s := Tick(st, sources, rows, faults), sources[i];
            && s.Active() && Present(st, s) && st'.Tracked(s.id) == Wants(s)
            && (t in Live(st'.Groups()) ||
                exists j :: i < j < |sources| && Takes(st, sources[j], t) && st'.Tracked(sources[j].id) == Wants(sources[j]))
  {
    var st', s, p := Tick(st, sources, rows, faults), sources[i], Protected(sources);
    var sts, va, v := TickTrace(st, sources, rows, faults);
    var n := VisitOf(sts, v, p, faults, sources, i);
    ProtectedIff(sources, t);
    if t !in Live(st'.Groups()) {
      var k := TakenLater(sts, v, p, faults, t, n + 1);
      RowsAround(sts, v, p, faults, k);
      assert v[k] in v && VisitedUnder(sts[k], v[k], p, faults, sts[k + 1]);
      var j := TakerComesLater(st, sources, va, v, i, n, k);
      assert Takes(st, sources[j], t) && st'.Tracked(sources[j].id) == Wants(sources[j]);
    }
  }

  /** The visit at which a source's tracking changed to something. */
  lemma VisitOf(sts: seq<State>, v: seq<Source>, p: set<Entry>, faults: Faults, sources: seq<Source>, i: nat)
    returns (n: nat)
    requires Trace(sts, v, p, faults) && DistinctIds(v) && DistinctIds(sources) && i < |sources|
    requires forall s :: s in v ==> s in sources
    requires sts[|v|].Tracked(sources[i].id) != sts[0].Tracked(sources[i].id) && sts[|v|].Tracked(sources[i].id) != {}
    ensures n < |v| && v[n] == sources[i] && v[n].Active()
    ensures Present(sts[0], v[n]) && sts[|v|].Tracked(v[n].id) == Wants(v[n]) && Wants(v[n]) <= Live(sts[n + 1].Groups())
  {
    if forall s :: s in v ==> s.id != sources[i].id {
      UnvisitedKeepsRows(sts, v, p, faults, sources[i].id);
    }
    n :| 0 <= n < |v| && v[n].id == sources[i].id;
    assert v[n] in v;
    var j :| 0 <= j < |sources| && sources[j] == v[n];
    SameIdSamePlace(sources, i, j);
    RowsAround(sts, v, p, faults, n);
    assert VisitedUnder(sts[n], v[n], p, faults, sts[n + 1]);
    TracePart(sts, v, p, faults, n);
    UnvisitedKeepsRows(sts[..n + 1], v[..n], p, faults, v[n].id);
    PresentFrame(sts[0], sts[n], v[n]);
  }
}
