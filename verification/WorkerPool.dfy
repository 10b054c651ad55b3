/** `runWithConcurrencyLimit`: workers that share a cursor and a results map. Between two awaits a worker runs alone,
    so an execution is a schedule: which worker runs next. */
module WorkerPool {
  /** Where a worker is: before `cursor++`, in the jitter sleep, inside `await worker(items[idx])`, or returned. */
  datatype Stage = Ready | Sleeping(idx: nat) | Calling(idx: nat) | Finished

  /** `calls` lists the indices for which `worker` was called, in order of the calls. */
  datatype Pool<R> = Pool(cursor: nat, stages: seq<Stage>, results: map<nat, R>, calls: seq<nat>)

  function Max(a: int, b: int): int {
    if a >= b then a else b
  }

  function Min(a: int, b: int): int {
    if a <= b then a else b
  }

  function WorkerCount(maxConcurrent: int, n: nat): (w: nat)
    ensures n > 0 ==> 1 <= w <= n
  {
    Min(Max(1, maxConcurrent), n)
  }

  function Start<R>(maxConcurrent: int, n: nat): Pool<R> {
    Pool(0, seq(WorkerCount(maxConcurrent, n), _ => Ready), map[], [])
  }

  /** Worker `k` runs up to its next await. `jitter` says that `jitterMs > 0`. */
  function Step<T, R>(p: Pool<R>, k: nat, items: seq<T>, worker: T -> R, jitter: bool): Pool<R>
    requires k < |p.stages|
  {
    match p.stages[k]
    case Ready =>
      var q := p.(cursor := p.cursor + 1);
      if p.cursor >= |items| then q.(stages := p.stages[k := Finished])
      else if jitter then q.(stages := p.stages[k := Sleeping(p.cursor)])
      else q.(stages := p.stages[k := Calling(p.cursor)], calls := p.calls + [p.cursor])
    case Sleeping(idx) => p.(stages := p.stages[k := Calling(idx)], calls := p.calls + [idx])
    case Calling(idx) =>
      if idx < |items| then p.(stages := p.stages[k := Ready], results := p.results[idx := worker(items[idx])]) else p
    case Finished => p
  }

  predicate Busy(s: Stage, idx: nat) {
    s == Sleeping(idx) || s == Calling(idx)
  }

  predicate Claimed<R>(p: Pool<R>, idx: nat) {
    idx in p.results || exists k :: 0 <= k < |p.stages| && Busy(p.stages[k], idx)
  }

  /** Indices below the cursor, and no others, are claimed: once, by a worker or by a stored result. */
  ghost predicate Partition<R>(p: Pool<R>, n: nat) {
    && (forall idx: nat :: Claimed(p, idx) <==> idx < Min(p.cursor, n))
    && (forall k, idx: nat :: 0 <= k < |p.stages| && Busy(p.stages[k], idx) ==> idx !in p.results)
    && (forall j, k, idx: nat :: 0 <= j < k < |p.stages| && Busy(p.stages[j], idx) ==> !Busy(p.stages[k], idx))
  }

  ghost predicate ResultsRight<T, R>(p: Pool<R>, items: seq<T>, worker: T -> R) {
    forall idx :: idx in p.results ==> idx < |items| && p.results[idx] == worker(items[idx])
  }

  /** The worker was called once for every index that is being called or has a result, and for no other. */
  ghost predicate CallsOnce<R>(p: Pool<R>) {
    && (forall i, j :: 0 <= i < j < |p.calls| ==> p.calls[i] != p.calls[j])
    && (forall idx :: idx in p.calls <==> idx in p.results || exists k :: 0 <= k < |p.stages| && p.stages[k] == Calling(idx))
  }

  /** A finished worker has seen the cursor past the end. */
  ghost predicate FinishedLate<R>(p: Pool<R>, n: nat) {
    forall k :: 0 <= k < |p.stages| && p.stages[k].Finished? ==> p.cursor > n
  }

  ghost predicate Inv<T, R>(p: Pool<R>, items: seq<T>, worker: T -> R) {
    Partition(p, |items|) && ResultsRight(p, items, worker) && CallsOnce(p) && FinishedLate(p, |items|)
  }

  lemma StartInv<T, R>(items: seq<T>, worker: T -> R, maxConcurrent: int)
    ensures Inv(Start<R>(maxConcurrent, |items|), items, worker)
  {
  }

  lemma StepClaimed<T, R>(p: Pool<R>, k: nat, items: seq<T>, worker: T -> R, jitter: bool, idx: nat)
    requires k < |p.stages| && Inv(p, items, worker)
    ensures var q := Step(p, k, items, worker, jitter); Claimed(q, idx) <==> idx < Min(q.cursor, |items|)
  {
    var q := Step(p, k, items, worker, jitter);
    assert Claimed(p, idx) <==> idx < Min(p.cursor, |items|);
    if j :| 0 <= j < |p.stages| && Busy(p.stages[j], idx) {
      assert j != k ==> Busy(q.stages[j], idx);
      assert j == k && !p.stages[k].Calling? ==> Busy(q.stages[k], idx);
    }
    if j :| 0 <= j < |q.stages| && Busy(q.stages[j], idx) {
      assert j != k ==> Busy(p.stages[j], idx);
    }
    if p.stages[k].Ready? && idx == p.cursor < |items| {
      assert Busy(q.stages[k], idx);
    }
  }

  lemma StepUnique<T, R>(p: Pool<R>, k: nat, items: seq<T>, worker: T -> R, jitter: bool, i: nat, j: nat, idx: nat)
    requires k < |p.stages| && Inv(p, items, worker)
    requires i < j < |p.stages|
    ensures var q := Step(p, k, items, worker, jitter); Busy(q.stages[i], idx) ==> !Busy(q.stages[j], idx)
  {
    var q := Step(p, k, items, worker, jitter);
    assert Claimed(p, p.cursor) <==> p.cursor < Min(p.cursor, |items|);
    if Busy(q.stages[i], idx) && Busy(q.stages[j], idx) {
      assert i != k ==> Busy(p.stages[i], idx);
      assert j != k ==> Busy(p.stages[j], idx);
      assert !p.stages[k].Ready? ==> Busy(p.stages[k], idx);
    }
  }

  lemma StepPartition<T, R>(p: Pool<R>, k: nat, items: seq<T>, worker: T -> R, jitter: bool)
    requires k < |p.stages| && Inv(p, items, worker)
    ensures Partition(Step(p, k, items, worker, jitter), |items|)
  {
    var q := Step(p, k, items, worker, jitter);
    forall idx: nat ensures Claimed(q, idx) <==> idx < Min(q.cursor, |items|) {
      StepClaimed(p, k, items, worker, jitter, idx);
    }
    forall i, j, idx: nat | 0 <= i < j < |q.stages| && Busy(q.stages[i], idx) ensures !Busy(q.stages[j], idx) {
      StepUnique(p, k, items, worker, jitter, i, j, idx);
    }
    forall j, idx: nat | 0 <= j < |q.stages| && Busy(q.stages[j], idx) ensures idx !in q.results {
      StepNotDone(p, k, items, worker, jitter, j, idx);
    }
  }

  lemma StepNotDone<T, R>(p: Pool<R>, k: nat, items: seq<T>, worker: T -> R, jitter: bool, j: nat, idx: nat)
    requires k < |p.stages| && Inv(p, items, worker)
    requires j < |p.stages|
    ensures var q := Step(p, k, items, worker, jitter); Busy(q.stages[j], idx) ==> idx !in q.results
  {
    var q := Step(p, k, items, worker, jitter);
    assert Claimed(p, p.cursor) <==> p.cursor < Min(p.cursor, |items|);
    if Busy(q.stages[j], idx) {
      assert j != k || !p.stages[k].Ready? ==> Busy(p.stages[j], idx);
      assert p.stages[k].Calling? ==> Busy(p.stages[k], p.stages[k].idx);
    }
  }

  lemma StepCalls<T, R>(p: Pool<R>, k: nat, items: seq<T>, worker: T -> R, jitter: bool)
    requires k < |p.stages| && Inv(p, items, worker)
    ensures CallsOnce(Step(p, k, items, worker, jitter))
  {
    var q := Step(p, k, items, worker, jitter);
    if q.stages[k].Calling? && !p.stages[k].Calling? {
      var idx := q.stages[k].idx;
      assert idx !in p.calls by {
        assert Claimed(p, p.cursor) <==> p.cursor < Min(p.cursor, |items|);
        if p.stages[k].Sleeping? {
          assert Busy(p.stages[k], idx);
        }
      }
    }
    forall idx ensures idx in q.calls <==> idx in q.results || exists j :: 0 <= j < |q.stages| && q.stages[j] == Calling(idx) {
      if j :| 0 <= j < |p.stages| && p.stages[j] == Calling(idx) {
        assert j != k ==> q.stages[j] == Calling(idx);
      }
      if j :| 0 <= j < |q.stages| && q.stages[j] == Calling(idx) {
        assert j != k ==> p.stages[j] == Calling(idx);
      }
      assert q.stages[k] == Calling(idx) || q.stages[k] != Calling(idx);
    }
  }

  /** One step of any worker keeps the invariant. */
  lemma StepInv<T, R>(p: Pool<R>, k: nat, items: seq<T>, worker: T -> R, jitter: bool)
    requires k < |p.stages| && Inv(p, items, worker)
    ensures Inv(Step(p, k, items, worker, jitter), items, worker)
  {
    StepPartition(p, k, items, worker, jitter);
    StepCalls(p, k, items, worker, jitter);
    if p.stages[k].Calling? {
      assert Busy(p.stages[k], p.stages[k].idx) && Claimed(p, p.stages[k].idx);
    }
  }

  // ---- termination ---------------------------------------------------------------------------------

  function Rank(s: Stage): nat {
    match s
    case Finished => 0
    case Ready => 1
    case Calling(_) => 2
    case Sleeping(_) => 3
  }

  function RankSum(stages: seq<Stage>): nat {
    if |stages| == 0 then 0 else RankSum(stages[..|stages| - 1]) + Rank(stages[|stages| - 1])
  }

  /** Turns for `n` indices: two each, and one more for the delay that jitter puts before a call. */
  function Turns(n: nat, jitter: bool): nat {
    if jitter then 3 * n else 2 * n
  }

  function Left<R>(p: Pool<R>, n: nat, jitter: bool): nat {
    Turns(n - Min(p.cursor, n), jitter) + RankSum(p.stages)
  }

  lemma {:induction false} RankSumUpdate(stages: seq<Stage>, k: nat, s: Stage)
    requires k < |stages|
    ensures RankSum(stages[k := s]) == RankSum(stages) - Rank(stages[k]) + Rank(s)
  {
    var n := |stages| - 1;
    if k == n {
      assert stages[k := s][..n] == stages[..n];
    } else {
      RankSumUpdate(stages[..n], k, s);
      assert stages[k := s][..n] == stages[..n][k := s];
    }
  }

  /** Every step of an unfinished worker uses up exactly one unit. */
  lemma StepProgress<T, R>(p: Pool<R>, k: nat, items: seq<T>, worker: T -> R, jitter: bool)
    requires k < |p.stages| && Inv(p, items, worker) && !p.stages[k].Finished?
    ensures Left(Step(p, k, items, worker, jitter), |items|, jitter) == Left(p, |items|, jitter) - 1
  {
    if p.stages[k].Calling? {
      assert Busy(p.stages[k], p.stages[k].idx) && Claimed(p, p.stages[k].idx);
    }
    RankSumUpdate(p.stages, k, Step(p, k, items, worker, jitter).stages[k]);
  }

  // ---- every schedule ------------------------------------------------------------------------------

  /** The pool after the workers named in `schedule` ran one after the other; finished workers are never scheduled. */
  function Run<T, R>(p: Pool<R>, schedule: seq<nat>, items: seq<T>, worker: T -> R, jitter: bool): (q: Pool<R>) {
    if |schedule| == 0 then p
    else
      var before := Run(p, schedule[..|schedule| - 1], items, worker, jitter);
      var k := schedule[|schedule| - 1];
      if k < |before.stages| then Step(before, k, items, worker, jitter) else before
  }

  /** `schedule` only ever runs a worker that is still there to run. */
  ghost predicate Schedulable<T, R>(p: Pool<R>, schedule: seq<nat>, items: seq<T>, worker: T -> R, jitter: bool) {
    forall i :: 0 <= i < |schedule| ==>
      var before := Run(p, schedule[..i], items, worker, jitter);
      schedule[i] < |before.stages| && !before.stages[schedule[i]].Finished?
  }

  predicate AllFinished<R>(p: Pool<R>) {
    forall k :: 0 <= k < |p.stages| ==> p.stages[k].Finished?
  }

  function Outstanding<R>(p: Pool<R>): set<nat> {
    set k | 0 <= k < |p.stages| && p.stages[k].Calling?
  }

  lemma {:induction false} RangeSize(n: nat, s: set<nat>)
    requires forall k :: k in s ==> k < n
    ensures |s| <= n
  {
    if n > 0 {
      RangeSize(n - 1, s - {n - 1});
      assert |s - {n - 1}| >= |s| - 1;
    } else {
      assert s == {};
    }
  }

  lemma {:induction false} RunInv<T, R>(schedule: seq<nat>, items: seq<T>, worker: T -> R, maxConcurrent: int,
                                        jitter: bool)
    ensures var p := Run(Start<R>(maxConcurrent, |items|), schedule, items, worker, jitter);
            Inv(p, items, worker) && |p.stages| == WorkerCount(maxConcurrent, |items|)
  {
    if |schedule| == 0 {
      StartInv(items, worker, maxConcurrent);
    } else {
      var n := |schedule| - 1;
      RunInv(schedule[..n], items, worker, maxConcurrent, jitter);
      var before := Run(Start<R>(maxConcurrent, |items|), schedule[..n], items, worker, jitter);
      if schedule[n] < |before.stages| {
        StepInv(before, schedule[n], items, worker, jitter);
      }
    }
  }

  /** Whatever the interleaving: never more calls at once than the limit, never two for one index, results only of the
      index's own item. */
  lemma EveryInterleaving<T, R>(schedule: seq<nat>, items: seq<T>, worker: T -> R, maxConcurrent: int, jitter: bool)
    ensures var p := Run(Start<R>(maxConcurrent, |items|), schedule, items, worker, jitter);
            && |Outstanding(p)| <= Min(Max(1, maxConcurrent), |items|)
            && (forall i, j :: 0 <= i < j < |p.calls| ==> p.calls[i] != p.calls[j])
            && (forall idx :: idx in p.results ==> idx < |items| && p.results[idx] == worker(items[idx]))
  {
    var p := Run(Start<R>(maxConcurrent, |items|), schedule, items, worker, jitter);
    RunInv(schedule, items, worker, maxConcurrent, jitter);
    RangeSize(|p.stages|, Outstanding(p));
  }

  lemma {:induction false} InitialRank(stages: seq<Stage>)
    requires forall k :: 0 <= k < |stages| ==> stages[k] == Ready
    ensures RankSum(stages) == |stages|
  {
    if |stages| > 0 {
      InitialRank(stages[..|stages| - 1]);
    }
  }

  lemma {:induction false} RunProgress<T, R>(schedule: seq<nat>, items: seq<T>, worker: T -> R, maxConcurrent: int,
                                             jitter: bool)
    requires Schedulable(Start<R>(maxConcurrent, |items|), schedule, items, worker, jitter)
    ensures var w, p := WorkerCount(maxConcurrent, |items|), Run(Start<R>(maxConcurrent, |items|), schedule, items, worker, jitter);
            |schedule| == Turns(|items|, jitter) + w - Left(p, |items|, jitter)
  {
    var start := Start<R>(maxConcurrent, |items|);
    if |schedule| == 0 {
      InitialRank(start.stages);
    } else {
      var n := |schedule| - 1;
      forall i | 0 <= i < n ensures schedule[..n][..i] == schedule[..i] {
      }
      RunProgress(schedule[..n], items, worker, maxConcurrent, jitter);
      RunInv(schedule[..n], items, worker, maxConcurrent, jitter);
      StepProgress(Run(start, schedule[..n], items, worker, jitter), schedule[n], items, worker, jitter);
    }
  }

  lemma {:induction false} NothingLeft(stages: seq<Stage>)
    ensures RankSum(stages) == 0 <==> forall k :: 0 <= k < |stages| ==> stages[k].Finished?
  {
    if |stages| > 0 {
      var n := |stages| - 1;
      NothingLeft(stages[..n]);
      assert forall k :: 0 <= k < n ==> stages[..n][k] == stages[k];
    }
  }

  /** The loop ends after exactly 2n + w turns, or 3n + w with jitter, and then every index has its item's result and was
      called once. */
  lemma EveryScheduleEnds<T, R>(schedule: seq<nat>, items: seq<T>, worker: T -> R, maxConcurrent: int, jitter: bool)
    requires Schedulable(Start<R>(maxConcurrent, |items|), schedule, items, worker, jitter)
    ensures var w, p := WorkerCount(maxConcurrent, |items|), Run(Start<R>(maxConcurrent, |items|), schedule, items, worker, jitter);
            var all := (if jitter then 3 * |items| else 2 * |items|) + w;
            && |schedule| <= all
            && (AllFinished(p) <==> |schedule| == all)
            && (AllFinished(p) ==> Complete(p, items, worker))
  {
    var p := Run(Start<R>(maxConcurrent, |items|), schedule, items, worker, jitter);
    RunProgress(schedule, items, worker, maxConcurrent, jitter);
    RunInv(schedule, items, worker, maxConcurrent, jitter);
    NothingLeft(p.stages);
    if AllFinished(p) {
      FinishedIsComplete(p, items, worker);
    }
  }

  ghost predicate Complete<T, R>(p: Pool<R>, items: seq<T>, worker: T -> R) {
    && (forall i: nat :: i in p.results <==> i < |items|)
    && (forall i :: 0 <= i < |items| ==> p.results[i] == worker(items[i]))
    && multiset(p.calls) == multiset(p.results.Keys)
  }

  lemma FinishedIsComplete<T, R>(p: Pool<R>, items: seq<T>, worker: T -> R)
    requires Inv(p, items, worker) && AllFinished(p) && (|items| > 0 ==> |p.stages| > 0)
    ensures Complete(p, items, worker)
  {
    forall i: nat | i < |items| ensures i in p.results {
      assert p.stages[0].Finished?;
      assert Claimed(p, i);
    }
    OncePerKey(p.calls, p.results.Keys);
  }

  lemma {:induction false} OncePerKey(calls: seq<nat>, keys: set<nat>)
    requires forall i, j :: 0 <= i < j < |calls| ==> calls[i] != calls[j]
    requires forall idx :: idx in calls <==> idx in keys
    ensures multiset(calls) == multiset(keys)
  {
    if |calls| == 0 {
      assert keys == {};
    } else {
      var n := |calls| - 1;
      var last := calls[n];
      assert calls == calls[..n] + [last];
      forall idx ensures idx in calls[..n] <==> idx in keys - {last} {
      }
      OncePerKey(calls[..n], keys - {last});
      assert keys == (keys - {last}) + {last};
    }
  }

  // ---- the loop ------------------------------------------------------------------------------------

  /** The function itself, under an arbitrary scheduler: as long as a worker has not returned, some such worker runs. */
  method RunWithConcurrencyLimit<T, R>(items: seq<T>, worker: T -> R, maxConcurrent: int,
                                       jitter: bool) returns (r: seq<R>)
    ensures |r| == |items|
    ensures forall i :: 0 <= i < |items| ==> r[i] == worker(items[i])
  {
    if |items| == 0 {
      return [];
    }
    var p: Pool<R> := Start(maxConcurrent, |items|);
    StartInv(items, worker, maxConcurrent);
    while !AllFinished(p)
      invariant Inv(p, items, worker) && |p.stages| > 0
      decreases Left(p, |items|, jitter)
    {
      var k :| 0 <= k < |p.stages| && !p.stages[k].Finished?;
      StepProgress(p, k, items, worker, jitter);
      StepInv(p, k, items, worker, jitter);
      p := Step(p, k, items, worker, jitter);
    }
    FinishedIsComplete(p, items, worker);
    var i := 0;
    r := [];
    while i < |items|
      invariant 0 <= i <= |items| && |r| == i
      invariant forall j :: 0 <= j < i ==> r[j] == worker(items[j])
    {
      assert i in p.results;
      r := r + [p.results[i]];
      i := i + 1;
    }
  }
}
