/** What holds in every run of the list cache, whatever the interleaving of nodes, replies, timers and clears. */
module ListCacheSafety {
  import opened Options
  import opened ListCacheModel

  // ---- one fetch at a time -------------------------------------------------------------------------------

  /** The slot of the shared fetch is set exactly while a fetch is unresolved, and names it: there is at most one. */
  ghost predicate OneFetch(inFlight: Option<nat>, fetches: map<nat, Fetch>, next: nat) {
    && (forall id :: id in fetches ==> id < next)
    && (forall id :: id in fetches && !fetches[id].Resolved? ==> inFlight == Some(id))
    && (inFlight.Some? ==> inFlight.value in fetches && !fetches[inFlight.value].Resolved?)
  }

  ghost predicate Attempts(fetches: map<nat, Fetch>) {
    forall id :: id in fetches && (fetches[id].Calling? || fetches[id].Pausing?) ==> fetches[id].attempt <= |RETRY_DELAYS|
  }

  ghost predicate Fetches(s: State) {
    OneFetch(s.inFlight, s.fetches, s.next) && Attempts(s.fetches)
  }

  /** A fetch that goes on without being resolved. */
  lemma FetchMoves(inFlight: Option<nat>, fetches: map<nat, Fetch>, next: nat, id: nat, f: Fetch)
    requires OneFetch(inFlight, fetches, next) && Attempts(fetches)
    requires id in fetches && !fetches[id].Resolved? && !f.Resolved?
    requires f.Calling? || f.Pausing? ==> f.attempt <= |RETRY_DELAYS|
    ensures OneFetch(inFlight, fetches[id := f], next) && Attempts(fetches[id := f])
  {
  }

  lemma FetchStarts(fetches: map<nat, Fetch>, next: nat, sent: Option<Entry>)
    requires OneFetch(None, fetches, next) && Attempts(fetches)
    ensures OneFetch(Some(next), fetches[next := Calling(sent, 0)], next + 1) && Attempts(fetches[next := Calling(sent, 0)])
  {
  }

  lemma FetchRefused(inFlight: Option<nat>, fetches: map<nat, Fetch>, next: nat, o: Outcome)
    requires OneFetch(inFlight, fetches, next) && Attempts(fetches)
    ensures OneFetch(inFlight, fetches[next := Resolved(o)], next + 1) && Attempts(fetches[next := Resolved(o)])
  {
  }

  lemma FetchLands(inFlight: Option<nat>, fetches: map<nat, Fetch>, next: nat, id: nat, o: Outcome)
    requires OneFetch(inFlight, fetches, next) && Attempts(fetches) && id in fetches && !fetches[id].Resolved?
    ensures OneFetch(None, fetches[id := Resolved(o)], next) && Attempts(fetches[id := Resolved(o)])
  {
  }

  lemma FetchOnceFetches(s: State, cached: Option<Entry>)
    requires Fetches(s)
    ensures var r := FetchOnce(s, cached); Fetches(r.0) && r.1 in r.0.fetches && r.0.next >= s.next
  {
    if ActiveUntil(s.limitedUntil, s.now) {
      FetchRefused(s.inFlight, s.fetches, s.next, Failed(LimitActive));
    } else if s.inFlight.None? {
      FetchStarts(s.fetches, s.next, cached);
    }
  }

  lemma ReceiveFetches(s: State, id: nat, reply: Reply, parse: string -> set<string>)
    requires Fetches(s) && Enabled(s, Reply(id, reply))
    ensures Fetches(Receive(s, id, reply, parse))
  {
    FetchMoves(s.inFlight, s.fetches, s.next, id, Receive(s, id, reply, parse).fetches[id]);
  }

  lemma NextGrows(inFlight: Option<nat>, fetches: map<nat, Fetch>, a: nat, b: nat)
    requires OneFetch(inFlight, fetches, a) && a <= b
    ensures OneFetch(inFlight, fetches, b)
  {
  }

  lemma BeginWriteFetches(s: State, node: string, home: Home, cached: Option<Entry>)
    requires Fetches(s)
    ensures Fetches(BeginWrite(s, node, home, cached))
  {
    if ActiveUntil(s.transientUntil, s.now) {
      NextGrows(s.inFlight, s.fetches, s.next, s.next + 1);
    } else {
      var s' := s.(transientUntil := None);
      FetchOnceFetches(s', cached);
      var r := FetchOnce(s', cached).0;
      NextGrows(r.inFlight, r.fetches, r.next, r.next + 1);
    }
  }

  lemma RequestFetches(s: State, node: string)
    requires Fetches(s)
    ensures Fetches(Request(s, node))
  {
    var s' := OpenHome(s, node);
    NextGrows(s.inFlight, s.fetches, s.next, s'.next);
    BeginWriteFetches(s', node, s'.homes[node], CachedAt(s', s'.homes[node]));
  }

  lemma ResumeLeavesFetches(s: State, id: nat)
    requires CanResume(s, id)
    ensures var s' := Resume(s, id); s'.fetches == s.fetches && s'.inFlight == s.inFlight && s'.next == s.next
  {
  }

  lemma StepFetches(s: State, a: Action, parse: string -> set<string>)
    requires Fetches(s) && Enabled(s, a)
    ensures Fetches(Step(s, a, parse))
  {
    match a
    case AskFor(node) => RequestFetches(s, node);
    case Reply(id, reply) => ReceiveFetches(s, id, reply, parse);
    case RetryTimer(id) => FetchMoves(s.inFlight, s.fetches, s.next, id, Retry(s, id).fetches[id]);
    case LandFetch(id) => FetchLands(s.inFlight, s.fetches, s.next, id, s.fetches[id].outcome);
    case ResumeWriter(id) => ResumeLeavesFetches(s, id);
    case _ =>
  }

  // ---- one cache write per node ----------------------------------------------------------------------------

  ghost predicate OneWriter(writers: map<nat, Writer>, slots: map<string, nat>, next: nat) {
    && (forall id :: id in writers ==> id < next && writers[id].node in slots && slots[writers[id].node] == id)
    && (forall node :: node in slots ==> slots[node] in writers && writers[slots[node]].node == node)
  }

  ghost predicate HomesOwned(homes: map<string, Home>, writers: map<nat, Writer>) {
    && (forall node :: node in homes ==> homes[node].node == node)
    && (forall id :: id in writers ==> writers[id].home.node == writers[id].node)
  }

  /** While a writer waits, its map holds what the writer captured, or was cleared. */
  ghost predicate Snapshots(writers: map<nat, Writer>, entries: map<Home, Entry>) {
    forall id :: id in writers && writers[id].stage.Awaiting? && writers[id].home in entries ==>
      writers[id].cached == Some(entries[writers[id].home])
  }

  ghost predicate Writers(s: State) {
    OneWriter(s.writers, s.inFlightWrites, s.next) && HomesOwned(s.homes, s.writers) && Snapshots(s.writers, s.entries)
  }

  lemma WriterJoins(s: State, w: Writer)
    requires Writers(s) && w.node !in s.inFlightWrites && w.home.node == w.node
    requires w.stage.Awaiting? ==> w.cached == CachedAt(s, w.home)
    ensures Writers(AddWriter(s, w))
  {
  }

  /** A map is written to only by the writer of its node. */
  lemma StoreKeepsSnapshots(s: State, home: Home, e: Entry)
    requires Writers(s)
    requires home.node in s.inFlightWrites ==> !s.writers[s.inFlightWrites[home.node]].stage.Awaiting?
    ensures Snapshots(s.writers, s.entries[home := e])
  {
    forall id | id in s.writers && s.writers[id].stage.Awaiting? ensures s.writers[id].home != home {
      assert s.inFlightWrites[s.writers[id].node] == id;
    }
  }

  lemma RecoverWriters(s: State, cached: Option<Entry>, home: Home, f: Failure)
    requires Writers(s)
    requires home.node in s.inFlightWrites ==> !s.writers[s.inFlightWrites[home.node]].stage.Awaiting?
    ensures Writers(Recover(s, cached, home, f).0)
  {
    StoreKeepsSnapshots(s, home, Entry({}, s.now, "", "", Some(Message(f))));
  }

  lemma FetchOnceFrame(s: State, cached: Option<Entry>)
    ensures var r := FetchOnce(s, cached).0;
            && r == s.(limitedUntil := r.limitedUntil, inFlight := r.inFlight, fetches := r.fetches, next := r.next)
            && s.fetches.Keys <= r.fetches.Keys && r.next >= s.next
  {
  }

  lemma BeginWriteWriters(s: State, node: string, home: Home, cached: Option<Entry>)
    requires Writers(s) && node !in s.inFlightWrites && home.node == node && cached == CachedAt(s, home)
    ensures Writers(BeginWrite(s, node, home, cached))
  {
    if ActiveUntil(s.transientUntil, s.now) {
      RecoverWriters(s, cached, home, TransientActive);
      var r := Recover(s, cached, home, TransientActive);
      WriterJoins(r.0, Writer(node, cached, home, Done(r.1)));
    } else {
      var s' := s.(transientUntil := None);
      var r := FetchOnce(s', cached);
      FetchOnceFrame(s', cached);
      WriterJoins(r.0, Writer(node, cached, home, Awaiting(r.1)));
    }
  }

  lemma RequestWriters(s: State, node: string)
    requires Writers(s)
    ensures Writers(Request(s, node))
  {
    var s' := OpenHome(s, node);
    assert Writers(s');
    if node !in s'.inFlightWrites {
      BeginWriteWriters(s', node, s'.homes[node], CachedAt(s', s'.homes[node]));
    }
  }

  /** The writer itself is done before it stores: the order inside the step does not matter. */
  lemma WriterFinishes(s: State, id: nat, e: Entry)
    requires Writers(s) && id in s.writers
    ensures Writers(s.(writers := s.writers[id := s.writers[id].(stage := Done(e))]))
  {
  }

  lemma ResumeWriters(s: State, id: nat)
    requires Writers(s) && CanResume(s, id)
    ensures Writers(Resume(s, id))
  {
    var w := s.writers[id];
    var r := Finish(s, w.cached, w.home, s.fetches[w.stage.fetch].outcome);
    var done := s.(writers := s.writers[id := w.(stage := Done(r.1))]);
    WriterFinishes(s, id, r.1);
    StoreKeepsSnapshots(done, w.home, r.1);
    FinishStores(s, w.cached, w.home, s.fetches[w.stage.fetch].outcome);
  }

  lemma FinishStores(s: State, cached: Option<Entry>, home: Home, o: Outcome)
    ensures var r := Finish(s, cached, home, o);
            && r.0 == s.(entries := r.0.entries, transientUntil := r.0.transientUntil)
            && (r.0.entries == s.entries || r.0.entries == s.entries[home := r.1])
  {
  }

  lemma WriterLeaves(s: State, id: nat)
    requires Writers(s) && id in s.writers && s.writers[id].stage.Done?
    ensures Writers(Leave(s, id))
  {
  }

  lemma StepWriters(s: State, a: Action, parse: string -> set<string>)
    requires Writers(s) && Enabled(s, a)
    ensures Writers(Step(s, a, parse))
  {
    match a
    case AskFor(node) => RequestWriters(s, node);
    case ResumeWriter(id) => ResumeWriters(s, id);
    case LeaveWriter(id) => WriterLeaves(s, id);
    case _ =>
  }

  // ---- no waiter is lost -------------------------------------------------------------------------------------

  /** No writer waits for a fetch that nobody runs or has run. */
  ghost predicate Awaited(writers: map<nat, Writer>, fetches: map<nat, Fetch>) {
    forall id :: id in writers && writers[id].stage.Awaiting? ==> writers[id].stage.fetch in fetches
  }

  lemma BeginWriteAwaited(s: State, node: string, home: Home, cached: Option<Entry>)
    requires Awaited(s.writers, s.fetches) && Fetches(s)
    ensures var s' := BeginWrite(s, node, home, cached); Awaited(s'.writers, s'.fetches)
  {
    if !ActiveUntil(s.transientUntil, s.now) {
      var s' := s.(transientUntil := None);
      FetchOnceFetches(s', cached);
      FetchOnceFrame(s', cached);
    }
  }

  lemma RequestAwaited(s: State, node: string)
    requires Awaited(s.writers, s.fetches) && Fetches(s)
    ensures var s' := Request(s, node); Awaited(s'.writers, s'.fetches)
  {
    var s' := OpenHome(s, node);
    NextGrows(s.inFlight, s.fetches, s.next, s'.next);
    BeginWriteAwaited(s', node, s'.homes[node], CachedAt(s', s'.homes[node]));
  }

  lemma StepAwaited(s: State, a: Action, parse: string -> set<string>)
    requires Awaited(s.writers, s.fetches) && Fetches(s) && Enabled(s, a)
    ensures var s' := Step(s, a, parse); Awaited(s'.writers, s'.fetches)
  {
    match a
    case AskFor(node) => RequestAwaited(s, node);
    case ResumeWriter(id) => ResumeLeavesFetches(s, id);
    case _ =>
  }
}
