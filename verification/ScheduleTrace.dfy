/** A tick, whatever fails in it, is a sequence of visits, at most one per source. */
module ScheduleTrace {
  import opened Sequences
  import opened BlockingConfig
  import opened ScheduleModel
  import opened ScheduleEffects

  ghost predicate Trace(sts: seq<State>, v: seq<Source>, p: set<Entry>, faults: Faults) {
    && |sts| == |v| + 1
    && forall k :: 0 <= k < |v| ==> VisitedUnder(sts[k], v[k], p, faults, sts[k + 1])
  }

  ghost predicate DistinctIds(v: seq<Source>) {
    forall i, j :: 0 <= i < j < |v| ==> v[i].id != v[j].id
  }

  /** Every applied row belongs to a source that still exists: deleting a source deletes its rows. */
  ghost predicate AppliedKnown(st: State, sources: seq<Source>) {
    forall id :: id in st.applied ==> exists s :: s in sources && s.id == id
  }

  ghost predicate WellFormed(st: State, sources: seq<Source>) {
    DistinctIds(sources) && AppliedKnown(st, sources)
  }

  // ---- the tick is a trace -------------------------------------------------------------------

  lemma ExtendTrace(sts: seq<State>, v: seq<Source>, p: set<Entry>, faults: Faults, s: Source, b: State)
    requires Trace(sts, v, p, faults) && VisitedUnder(sts[|v|], s, p, faults, b)
    ensures Trace(sts + [b], v + [s], p, faults)
  {
    var sts', v' := sts + [b], v + [s];
    forall k | 0 <= k < |v'| ensures VisitedUnder(sts'[k], v'[k], p, faults, sts'[k + 1]) {
      assert sts'[k] == sts[k];
      if k < |v| {
        assert sts'[k + 1] == sts[k + 1] && v'[k] == v[k];
        assert VisitedUnder(sts[k], v[k], p, faults, sts[k + 1]);
      }
    }
  }

  lemma {:induction false} EvaluateAllTrace(st: State, vs: seq<Source>, p: set<Entry>, faults: Faults) returns (sts: seq<State>)
    requires forall s :: s in vs ==> s.inRotation
    ensures Trace(sts, vs, p, faults) && sts[0] == st && sts[|vs|] == EvaluateAll(st, vs, p, faults)
  {
    if vs == [] {
      sts := [st];
    } else {
      var init, last := vs[..|vs| - 1], vs[|vs| - 1];
      var sts' := EvaluateAllTrace(st, init, p, faults);
      EvaluateVisits(sts'[|init|], last, p, faults);
      sts := sts' + [EvaluateAll(st, vs, p, faults)];
      ExtendTrace(sts', init, p, faults, last, EvaluateAll(st, vs, p, faults));
      assert vs == init + [last];
    }
  }

  lemma {:induction false} UnvisitedKeepsRows(sts: seq<State>, v: seq<Source>, p: set<Entry>, faults: Faults, id: string)
    requires Trace(sts, v, p, faults)
    requires forall s :: s in v ==> s.id != id
    ensures id in sts[|v|].applied <==> id in sts[0].applied
    ensures sts[|v|].Tracked(id) == sts[0].Tracked(id)
    ensures SameShape(sts[0].Groups(), sts[|v|].Groups())
  {
    if v != [] {
      var n := |v| - 1;
      forall k | 0 <= k < n ensures VisitedUnder(sts[..n + 1][k], v[..n][k], p, faults, sts[..n + 1][k + 1]) {
        assert VisitedUnder(sts[k], v[k], p, faults, sts[k + 1]);
      }
      UnvisitedKeepsRows(sts[..n + 1], v[..n], p, faults, id);
      assert VisitedUnder(sts[n], v[n], p, faults, sts[n + 1]);
      assert v[n] in v;
    }
  }

  ghost predicate Stale(id: string, sources: seq<Source>) {
    FindSource(sources, id) >= 0 && !InRotation(id, sources)
  }

  ghost function StaleSources(rows: seq<string>, sources: seq<Source>): (v: seq<Source>)
    requires forall k :: 0 <= k < |rows| ==> Stale(rows[k], sources)
    ensures |v| == |rows| && forall k :: 0 <= k < |v| ==> v[k].id == rows[k] && v[k] in sources
  {
    seq(|rows|, k requires 0 <= k < |rows| && Stale(rows[k], sources) => sources[FindSource(sources, rows[k])])
  }

  lemma {:induction false} CleanupAllTrace(st: State, rows: seq<string>, sources: seq<Source>, p: set<Entry>, faults: Faults)
    returns (sts: seq<State>)
    requires NoDuplicates(rows)
    requires forall k :: 0 <= k < |rows| ==> rows[k] in st.applied
    requires forall k :: 0 <= k < |rows| ==> Stale(rows[k], sources)
    ensures Trace(sts, StaleSources(rows, sources), p, faults)
    ensures sts[0] == st && sts[|rows|] == CleanupAll(st, rows, sources, p, faults)
  {
    if rows == [] {
      sts := [st];
    } else {
      var init, last := rows[..|rows| - 1], rows[|rows| - 1];
      var sts' := CleanupAllTrace(st, init, sources, p, faults);
      assert Stale(last, sources);
      sts := CleanupNext(sts', init, last, sources, p, faults);
      assert rows == init + [last];
    }
  }

  lemma CleanupNext(sts: seq<State>, rows: seq<string>, id: string, sources: seq<Source>, p: set<Entry>, faults: Faults)
    returns (sts': seq<State>)
    requires id !in rows && |sts| == |rows| + 1 && id in sts[0].applied && Stale(id, sources)
    requires forall k :: 0 <= k < |rows| ==> Stale(rows[k], sources)
    requires Trace(sts, StaleSources(rows, sources), p, faults)
    ensures sts' == sts + [Cleanup(sts[|rows|], id, sources, p, faults).0]
    ensures Trace(sts', StaleSources(rows + [id], sources), p, faults)
  {
    var v, st, s := StaleSources(rows, sources), sts[|rows|], sources[FindSource(sources, id)];
    forall s | s in v ensures s.id != id {
      var k :| 0 <= k < |v| && v[k] == s;
      assert v[k].id == rows[k];
    }
    UnvisitedKeepsRows(sts, v, p, faults, id);
    CleanupVisits(st, id, sources, p, faults);
    ExtendTrace(sts, v, p, faults, s, Cleanup(st, id, sources, p, faults).0);
    assert StaleSources(rows + [id], sources) == v + [s];
    sts' := sts + [Cleanup(st, id, sources, p, faults).0];
  }

  lemma ConcatTrace(a: seq<State>, v: seq<Source>, b: seq<State>, w: seq<Source>, p: set<Entry>, faults: Faults)
    requires Trace(a, v, p, faults) && Trace(b, w, p, faults) && a[|v|] == b[0]
    ensures Trace(a + b[1..], v + w, p, faults)
  {
    var sts, vs := a + b[1..], v + w;
    forall k | 0 <= k < |vs| ensures VisitedUnder(sts[k], vs[k], p, faults, sts[k + 1]) {
      if k < |v| {
        assert VisitedUnder(a[k], v[k], p, faults, a[k + 1]);
      } else {
        assert VisitedUnder(b[k - |v|], w[k - |v|], p, faults, b[k - |v| + 1]);
      }
    }
  }

  lemma {:induction false} RotationDistinct(sources: seq<Source>)
    requires DistinctIds(sources)
    ensures DistinctIds(Rotation(sources))
  {
    if sources != [] {
      var n := |sources| - 1;
      var init, r := sources[..n], Rotation(sources[..n]);
      RotationDistinct(init);
      forall i | 0 <= i < |r| ensures r[i].id != sources[n].id {
        assert r[i] in r;
        var j :| 0 <= j < n && sources[j] == r[i];
      }
    }
  }

  lemma {:induction false} StaleRowsDistinct(rows: seq<string>, sources: seq<Source>)
    requires NoDuplicates(rows)
    ensures NoDuplicates(StaleRows(rows, sources))
  {
    if rows != [] {
      var n := |rows| - 1;
      var r := StaleRows(rows[..n], sources);
      StaleRowsDistinct(rows[..n], sources);
      forall i | 0 <= i < |r| ensures r[i] != rows[n] {
        assert r[i] in r;
        var j :| 0 <= j < n && rows[j] == r[i];
      }
    }
  }

  /** A tick visits, once each, the sources in rotation and those that still have an applied row. */
  lemma TickTrace(st: State, sources: seq<Source>, rows: seq<string>, faults: Faults)
    returns (sts: seq<State>, va: seq<Source>, v: seq<Source>)
    requires WellFormed(st, sources) && Enumerates(rows, st.applied)
    ensures Trace(sts, v, Protected(sources), faults) && sts[0] == st && sts[|v|] == Tick(st, sources, rows, faults)
    ensures DistinctIds(v)
    ensures v == va + Rotation(sources) && forall s :: s in va ==> !s.inRotation
    ensures forall s :: s in v <==> s in sources && (s.inRotation || s.id in st.applied)
  {
    var p, stale, active := Protected(sources), StaleRows(rows, sources), Rotation(sources);
    StaleRowsDistinct(rows, sources);
    RotationDistinct(sources);
    forall k | 0 <= k < |stale| ensures stale[k] in st.applied && Stale(stale[k], sources) {
      assert stale[k] in stale;
      var s :| s in sources && s.id == stale[k];
    }
    va := StaleSources(stale, sources);
    var a := CleanupAllTrace(st, stale, sources, p, faults);
    var b := EvaluateAllTrace(a[|va|], active, p, faults);
    ConcatTrace(a, va, b, active, p, faults);
    sts, v := a + b[1..], va + active;
    assert sts[|v|] == b[|active|];
    VisitsAreDistinct(sources, stale);
    forall s ensures s in v <==> s in sources && (s.inRotation || s.id in st.applied) {
      StaleSourceVisited(sources, stale, s);
    }
  }

  lemma StaleIsOutOfRotation(sources: seq<Source>, id: string, s: Source)
    requires s in sources && s.id == id && Stale(id, sources)
    ensures !s.inRotation
  {
    var i :| 0 <= i < |sources| && sources[i] == s;
    assert !(sources[i].id == id && sources[i].inRotation);
  }

  lemma VisitsAreDistinct(sources: seq<Source>, stale: seq<string>)
    requires DistinctIds(sources) && NoDuplicates(stale)
    requires forall k :: 0 <= k < |stale| ==> Stale(stale[k], sources)
    ensures DistinctIds(StaleSources(stale, sources) + Rotation(sources))
  {
    RotationDistinct(sources);
    var va, active := StaleSources(stale, sources), Rotation(sources);
    forall i, j | 0 <= i < |va| && 0 <= j < |active| ensures va[i].id != active[j].id {
      assert active[j] in active && Stale(stale[i], sources);
      if va[i].id == active[j].id {
        StaleIsOutOfRotation(sources, stale[i], active[j]);
      }
    }
  }

  lemma StaleSourceVisited(sources: seq<Source>, stale: seq<string>, s: Source)
    requires DistinctIds(sources)
    requires forall k :: 0 <= k < |stale| ==> Stale(stale[k], sources)
    ensures s in StaleSources(stale, sources) <==> s in sources && s.id in stale
    ensures s in sources && s.id in stale ==> !s.inRotation
    ensures s in sources && !s.inRotation ==> !InRotation(s.id, sources)
  {
    var va := StaleSources(stale, sources);
    if s in sources && s.id in stale {
      var k :| 0 <= k < |stale| && stale[k] == s.id;
      var i :| 0 <= i < |sources| && sources[i] == s;
      var j :| 0 <= j < |sources| && sources[j] == va[k];
      assert i == j;
      assert Stale(stale[k], sources);
      StaleIsOutOfRotation(sources, s.id, s);
    }
  }
}
