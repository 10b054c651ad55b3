/** Exact effect of a fault-free tick, convergence in two ticks, and when one tick is enough. */
module ScheduleTick {
  import opened Sequences
  import opened BlockingConfig
  import opened ScheduleModel
  import opened ScheduleEffects
  import opened ScheduleTrace

  // ---- closed form of a trace ----------------------------------------------------------------

  /** What one visit adds and strips. */
  datatype Effect = Effect(added: set<Entry>, stripped: set<Entry>)

  /** The effects of the visits, judged by the tables as they were before the tick. */
  ghost function Effects(st: State, v: seq<Source>, p: set<Entry>): (fx: seq<Effect>)
    ensures |fx| == |v|
  {
    seq(|v|, k requires 0 <= k < |v| => Effect(Added(st, v[k]), Stripped(st, v[k], p)))
  }

  lemma EffectAt(st: State, v: seq<Source>, p: set<Entry>, k: nat)
    requires k < |v|
    ensures Effects(st, v, p)[k] == Effect(Added(st, v[k]), Stripped(st, v[k], p))
  {
  }

  ghost predicate SurvivesFrom(t: Entry, fx: seq<Effect>, k: int) {
    forall j :: 0 <= j < |fx| && k <= j ==> t !in fx[j].stripped
  }

  /** Some visit adds `t` and no later one strips it; or it was live and no visit strips it. */
  ghost predicate EndsLive(t: Entry, live: bool, fx: seq<Effect>) {
    || (exists k :: 0 <= k < |fx| && t in fx[k].added && SurvivesFrom(t, fx, k + 1))
    || (live && SurvivesFrom(t, fx, 0))
  }

  lemma EndsLiveStep(t: Entry, live: bool, fx: seq<Effect>)
    requires |fx| > 0
    ensures EndsLive(t, live, fx) <==>
            t in fx[|fx| - 1].added || (EndsLive(t, live, fx[..|fx| - 1]) && t !in fx[|fx| - 1].stripped)
  {
    var n := |fx| - 1;
    var init := fx[..n];
    if t in fx[n].added {
      assert SurvivesFrom(t, fx, n + 1);
    } else if EndsLive(t, live, fx) {
      if k :| 0 <= k < |fx| && t in fx[k].added && SurvivesFrom(t, fx, k + 1) {
        assert init[k] == fx[k] && SurvivesFrom(t, init, k + 1);
      } else {
        assert SurvivesFrom(t, init, 0);
      }
    } else if EndsLive(t, live, init) && t !in fx[n].stripped {
      if k :| 0 <= k < n && t in init[k].added && SurvivesFrom(t, init, k + 1) {
        assert t in fx[k].added;
        SurvivesOneMore(t, fx, k + 1);
      } else {
        SurvivesOneMore(t, fx, 0);
      }
    }
  }

  lemma SurvivesOneMore(t: Entry, fx: seq<Effect>, k: int)
    requires |fx| > 0 && SurvivesFrom(t, fx[..|fx| - 1], k) && t !in fx[|fx| - 1].stripped
    ensures SurvivesFrom(t, fx, k)
  {
    forall j | 0 <= j < |fx| && k <= j ensures t !in fx[j].stripped {
      if j < |fx| - 1 {
        assert fx[..|fx| - 1][j] == fx[j];
      }
    }
  }

  lemma PresentFrame(a: State, b: State, s: Source)
    requires SameShape(a.Groups(), b.Groups())
    ensures Present(a, s) <==> Present(b, s)
  {
    forall n | n in s.groupNames ensures IndexOf(a.Groups(), n) == IndexOf(b.Groups(), n) {
      SameShapeSameIndex(a.Groups(), b.Groups(), n);
    }
  }

  /** A source's own effect depends only on its own rows and on the group names. */
  lemma EffectFrame(a: State, b: State, s: Source, p: set<Entry>)
    requires SameShape(a.Groups(), b.Groups())
    requires a.Tracked(s.id) == b.Tracked(s.id) && (s.id in a.applied <==> s.id in b.applied)
    ensures Added(a, s) == Added(b, s) && Stripped(a, s, p) == Stripped(b, s, p)
    ensures TrackedAfter(a, s) == TrackedAfter(b, s) && AppliedAfter(a, s) == AppliedAfter(b, s)
  {
    PresentFrame(a, b, s);
  }

  /** The n-th visit of a trace has the effect it would have had at the start. */
  lemma VisitEffect(sts: seq<State>, v: seq<Source>, p: set<Entry>, n: nat)
    requires Trace(sts, v, p, NO_FAULTS) && DistinctIds(v) && n < |v|
    ensures Live(sts[n + 1].Groups()) == Live(sts[n].Groups()) - Stripped(sts[0], v[n], p) + Added(sts[0], v[n])
  {
    forall k | 0 <= k < n ensures VisitedUnder(sts[..n + 1][k], v[..n][k], p, NO_FAULTS, sts[..n + 1][k + 1]) {
      assert VisitedUnder(sts[k], v[k], p, NO_FAULTS, sts[k + 1]);
    }
    UnvisitedKeepsRows(sts[..n + 1], v[..n], p, NO_FAULTS, v[n].id);
    EffectFrame(sts[0], sts[n], v[n], p);
    FaultFreeVisit(sts[n], v[n], p, sts[n + 1]);
  }

  ghost predicate Follows(lives: seq<set<Entry>>, fx: seq<Effect>) {
    |lives| == |fx| + 1 && forall k :: 0 <= k < |fx| ==> lives[k + 1] == lives[k] - fx[k].stripped + fx[k].added
  }

  lemma EndsLiveLast(t: Entry, live: bool, before: bool, after: bool, init: seq<Effect>, fx: seq<Effect>)
    requires |fx| > 0 && fx[..|fx| - 1] == init && (before <==> EndsLive(t, live, init))
    requires after <==> t in fx[|fx| - 1].added || (before && t !in fx[|fx| - 1].stripped)
    ensures after <==> EndsLive(t, live, fx)
  {
    EndsLiveStep(t, live, fx);
  }

  lemma {:induction false} EndsLiveAlong(lives: seq<set<Entry>>, fx: seq<Effect>, t: Entry, n: nat)
    requires Follows(lives, fx) && n <= |fx|
    ensures t in lives[n] <==> EndsLive(t, t in lives[0], fx[..n])
    decreases n
  {
    if n > 0 {
      EndsLiveAlong(lives, fx, t, n - 1);
      assert fx[..n][..n - 1] == fx[..n - 1];
      assert lives[n - 1 + 1] == lives[n - 1] - fx[n - 1].stripped + fx[n - 1].added;
      EndsLiveLast(t, t in lives[0], t in lives[n - 1], t in lives[n], fx[..n - 1], fx[..n]);
    }
  }

  ghost function Lives(sts: seq<State>): seq<set<Entry>> {
    seq(|sts|, k requires 0 <= k < |sts| => Live(sts[k].Groups()))
  }

  lemma TraceLive(sts: seq<State>, v: seq<Source>, p: set<Entry>, t: Entry)
    requires Trace(sts, v, p, NO_FAULTS) && DistinctIds(v)
    ensures t in Live(sts[|v|].Groups()) <==> EndsLive(t, t in Live(sts[0].Groups()), Effects(sts[0], v, p))
  {
    var lives, fx := Lives(sts), Effects(sts[0], v, p);
    forall k | 0 <= k < |fx| ensures lives[k + 1] == lives[k] - fx[k].stripped + fx[k].added {
      VisitEffect(sts, v, p, k);
    }
    assert Follows(lives, fx);
    EndsLiveAlong(lives, fx, t, |v|);
    assert fx[..|v|] == fx;
  }

  lemma TracePrefix(sts: seq<State>, v: seq<Source>, p: set<Entry>)
    requires v != [] && Trace(sts, v, p, NO_FAULTS)
    ensures Trace(sts[..|v|], v[..|v| - 1], p, NO_FAULTS)
  {
    forall k | 0 <= k < |v| - 1 ensures VisitedUnder(sts[..|v|][k], v[..|v| - 1][k], p, NO_FAULTS, sts[..|v|][k + 1]) {
      assert VisitedUnder(sts[k], v[k], p, NO_FAULTS, sts[k + 1]);
    }
  }

  lemma {:induction false} TraceTables(sts: seq<State>, v: seq<Source>, p: set<Entry>, s: Source)
    requires Trace(sts, v, p, NO_FAULTS) && DistinctIds(v) && s in v
    ensures sts[|v|].Tracked(s.id) == TrackedAfter(sts[0], s)
    ensures s.id in sts[|v|].applied <==> AppliedAfter(sts[0], s)
  {
    var n := |v| - 1;
    TracePrefix(sts, v, p);
    if s == v[n] {
      UnvisitedKeepsRows(sts[..n + 1], v[..n], p, NO_FAULTS, s.id);
      EffectFrame(sts[0], sts[n], s, p);
    } else {
      assert s in v[..n];
      TraceTables(sts[..n + 1], v[..n], p, s);
    }
    FaultFreeVisit(sts[n], v[n], p, sts[n + 1]);
  }

  // ---- closed form of a tick -----------------------------------------------------------------

  /** No matter in which order stale rows come, the tick acts as if every source were visited in list order. */
  lemma TickLive(st: State, sources: seq<Source>, rows: seq<string>, t: Entry)
    requires WellFormed(st, sources) && Enumerates(rows, st.applied)
    ensures t in Live(Tick(st, sources, rows, NO_FAULTS).Groups()) <==>
            EndsLive(t, t in Live(st.Groups()), Effects(st, sources, Protected(sources)))
  {
    var p, live := Protected(sources), t in Live(st.Groups());
    var sts, stale, v := TickTrace(st, sources, rows, NO_FAULTS);
    TraceLive(sts, v, p, t);
    if t in p {
      WantedOrder(st, sources, v, stale, p, t, live);
    } else {
      UnwantedAnyOrder(st, sources, v, p, t, live);
    }
  }

  /** Split of a trace's visits, kept by `TickTrace`. */
  lemma WantedOrder(st: State, sources: seq<Source>, v: seq<Source>, stale: seq<Source>, p: set<Entry>, t: Entry,
                    live: bool)
    requires p == Protected(sources) && t in p
    requires v == stale + Rotation(sources) && forall s :: s in stale ==> !s.inRotation
    ensures EndsLive(t, live, Effects(st, v, p)) <==> EndsLive(t, live, Effects(st, sources, p))
  {
    RotationOrder(st, sources, p, t, live);
    StaleIsNeutral(st, stale, p, t);
    NeutralPrefix(t, live, Effects(st, stale, p), Effects(st, Rotation(sources), p));
    EffectsConcat(st, stale, Rotation(sources), p);
  }

  lemma {:induction false} NeutralPrefix(t: Entry, live: bool, a: seq<Effect>, b: seq<Effect>)
    requires forall k :: 0 <= k < |a| ==> t !in a[k].added && t !in a[k].stripped
    ensures EndsLive(t, live, a + b) <==> EndsLive(t, live, b)
  {
    if b == [] {
      assert a + b == a;
      NothingAdded(t, live, a);
      NothingAdded(t, live, b);
    } else {
      NeutralPrefix(t, live, a, b[..|b| - 1]);
      EndsLiveStep(t, live, a + b);
      EndsLiveStep(t, live, b);
      assert (a + b)[..|a + b| - 1] == a + b[..|b| - 1];
    }
  }

  lemma NothingAdded(t: Entry, live: bool, fx: seq<Effect>)
    requires forall k :: 0 <= k < |fx| ==> t !in fx[k].added
    ensures EndsLive(t, live, fx) <==> live && forall k :: 0 <= k < |fx| ==> t !in fx[k].stripped
  {
  }

  /** A source that is not active adds nothing and takes away nothing that an active source wants. */
  lemma InactiveIsNeutral(st: State, s: Source, p: set<Entry>, t: Entry)
    requires t in p && !s.Active()
    ensures t !in Added(st, s) && t !in Stripped(st, s, p)
  {
  }

  lemma StaleIsNeutral(st: State, stale: seq<Source>, p: set<Entry>, t: Entry)
    requires t in p && forall s :: s in stale ==> !s.inRotation
    ensures var fx := Effects(st, stale, p);
            forall k :: 0 <= k < |fx| ==> t !in fx[k].added && t !in fx[k].stripped
  {
    forall k | 0 <= k < |stale| ensures t !in Added(st, stale[k]) && t !in Stripped(st, stale[k], p) {
      assert stale[k] in stale;
      InactiveIsNeutral(st, stale[k], p, t);
    }
  }

  lemma EffectsConcat(st: State, a: seq<Source>, b: seq<Source>, p: set<Entry>)
    ensures Effects(st, a + b, p) == Effects(st, a, p) + Effects(st, b, p)
  {
  }

  lemma EffectsStep(st: State, v: seq<Source>, p: set<Entry>, t: Entry, live: bool)
    requires v != []
    ensures EndsLive(t, live, Effects(st, v, p)) <==>
            t in Added(st, v[|v| - 1]) ||
            (EndsLive(t, live, Effects(st, v[..|v| - 1], p)) && t !in Stripped(st, v[|v| - 1], p))
  {
    EndsLiveStep(t, live, Effects(st, v, p));
    assert Effects(st, v, p)[..|v| - 1] == Effects(st, v[..|v| - 1], p);
  }

  lemma {:induction false} RotationOrder(st: State, sources: seq<Source>, p: set<Entry>, t: Entry, live: bool)
    requires t in p
    ensures EndsLive(t, live, Effects(st, Rotation(sources), p)) <==> EndsLive(t, live, Effects(st, sources, p))
  {
    if sources != [] {
      var n := |sources| - 1;
      RotationOrder(st, sources[..n], p, t, live);
      EffectsStep(st, sources, p, t, live);
      if sources[n].inRotation {
        EffectsStep(st, Rotation(sources), p, t, live);
        assert Rotation(sources)[..|Rotation(sources)| - 1] == Rotation(sources[..n]);
      } else {
        InactiveIsNeutral(st, sources[n], p, t);
        assert Rotation(sources) == Rotation(sources[..n]);
      }
    }
  }

  lemma UnwantedAdded(st: State, v: seq<Source>, sources: seq<Source>, t: Entry)
    requires t !in Protected(sources) && forall s :: s in v ==> s in sources
    ensures forall k :: 0 <= k < |v| ==> t !in Added(st, v[k])
  {
    ProtectedIff(sources, t);
    forall k | 0 <= k < |v| ensures t !in Added(st, v[k]) {
      assert v[k] in v;
    }
  }

  ghost predicate NoneStrips(st: State, v: seq<Source>, p: set<Entry>, t: Entry) {
    forall s :: s in v ==> t !in Stripped(st, s, p)
  }

  lemma UnwantedLive(st: State, v: seq<Source>, sources: seq<Source>, p: set<Entry>, t: Entry, live: bool)
    requires p == Protected(sources) && t !in p && forall s :: s in v ==> s in sources
    ensures EndsLive(t, live, Effects(st, v, p)) <==> live && NoneStrips(st, v, p, t)
  {
    var fx := Effects(st, v, p);
    UnwantedAdded(st, v, sources, t);
    NothingAdded(t, live, fx);
    if NoneStrips(st, v, p, t) {
      forall k | 0 <= k < |v| ensures t !in fx[k].stripped {
        assert v[k] in v;
      }
    } else {
      var s :| s in v && t in Stripped(st, s, p);
      var k :| 0 <= k < |v| && v[k] == s;
      assert t in fx[k].stripped;
    }
  }

  lemma UnwantedAnyOrder(st: State, sources: seq<Source>, v: seq<Source>, p: set<Entry>, t: Entry, live: bool)
    requires p == Protected(sources) && t !in p
    requires forall s :: s in v <==> s in sources && (s.inRotation || s.id in st.applied)
    ensures EndsLive(t, live, Effects(st, v, p)) <==> EndsLive(t, live, Effects(st, sources, p))
  {
    UnwantedLive(st, v, sources, p, t, live);
    UnwantedLive(st, sources, sources, p, t, live);
    forall s | s in sources && s !in v ensures t !in Stripped(st, s, p) {
    }
  }
}
