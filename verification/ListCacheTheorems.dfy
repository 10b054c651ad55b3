/** The promises of the list cache, stated over all runs, and where the code falls short of them. */
module ListCacheTheorems {
  import opened Options
  import opened ListCacheModel
  import opened ListCacheSafety
  import opened ListCacheRuns

  ghost predicate Safe(w: World, parse: string -> set<string>) {
    && Fetches(w.s) && Writers(w.s) && Awaited(w.s.writers, w.s.fetches)
    && Deadlines(w) && Pauses(w) && AllGenuine(w.s, w.pages, parse)
  }

  lemma NextSafe(w: World, a: Action, parse: string -> set<string>)
    requires Safe(w, parse)
    ensures Safe(Next(w, a, parse), parse)
  {
    if Enabled(w.s, a) {
      StepFetches(w.s, a, parse);
      StepWriters(w.s, a, parse);
      StepAwaited(w.s, a, parse);
      StepDeadlines(w, a, parse);
      StepPauses(w, a, parse);
      StepGenuine(w, a, parse);
    }
  }

  lemma {:induction false} RunSafe(now: int, actions: seq<Action>, parse: string -> set<string>)
    ensures Safe(Run(now, actions, parse), parse)
  {
    if |actions| > 0 {
      RunSafe(now, actions[..|actions| - 1], parse);
      NextSafe(Run(now, actions[..|actions| - 1], parse), actions[|actions| - 1], parse);
    }
  }

  // ---- single flight -----------------------------------------------------------------------------------------

  /** Of all fetches ever started for the URL at most one is unfinished, and it has sent at most three requests. */
  lemma SingleFlight(now: int, actions: seq<Action>, parse: string -> set<string>, i: nat, j: nat)
    requires var s := Run(now, actions, parse).s;
             i in s.fetches && j in s.fetches && Active(s.fetches[i]) && Active(s.fetches[j])
    ensures i == j && Run(now, actions, parse).s.inFlight == Some(i)
    ensures Run(now, actions, parse).s.fetches[i].attempt <= 2
  {
    RunSafe(now, actions, parse);
  }

  /** Per node at most one cache write is under way. */
  lemma SingleWrite(now: int, actions: seq<Action>, parse: string -> set<string>, i: nat, j: nat)
    requires var s := Run(now, actions, parse).s;
             i in s.writers && j in s.writers && s.writers[i].node == s.writers[j].node
    ensures i == j
  {
    RunSafe(now, actions, parse);
  }

  /** What a writer waits for: a reply, a timer, or a step of the service that is enabled. */
  ghost predicate CanMove(s: State, id: nat)
    requires id in s.writers
  {
    match s.writers[id].stage
    case Done(_) => Enabled(s, LeaveWriter(id))
    case Awaiting(f) =>
      f in s.fetches && (IsCalling(s, f) || s.fetches[f].Pausing? || Enabled(s, LandFetch(f)) || Enabled(s, ResumeWriter(id)))
  }

  lemma NoWaiterIsLost(now: int, actions: seq<Action>, parse: string -> set<string>, id: nat)
    requires id in Run(now, actions, parse).s.writers
    ensures CanMove(Run(now, actions, parse).s, id)
  {
    RunSafe(now, actions, parse);
  }

  // ---- back-off ----------------------------------------------------------------------------------------------

  /** No HTTP request of any run goes out before a deadline set by an earlier 429 or 503, retries included. */
  lemma RetryAfterIsKept(now: int, actions: seq<Action>, a: Action, id: nat, parse: string -> set<string>)
    requires var w := Run(now, actions, parse); !IsCalling(w.s, id) && IsCalling(Next(w, a, parse).s, id)
    ensures var w := Run(now, actions, parse); forall d :: d in w.deadlines ==> d <= w.s.now
  {
    RunSafe(now, actions, parse);
    CallsWait(Run(now, actions, parse), a, id, parse);
  }

  /** After a transient failure no request of any node starts a fetch for five minutes, unless one succeeds. */
  lemma TransientPauseIsKept(now: int, actions: seq<Action>, node: string, id: nat, parse: string -> set<string>)
    requires var s := Run(now, actions, parse).s; !IsCalling(s, id) && IsCalling(Request(s, node), id)
    ensures var w := Run(now, actions, parse); forall d :: d in w.pauses ==> d <= w.s.now
  {
    RunSafe(now, actions, parse);
    RequestsPause(Run(now, actions, parse), node, id);
  }

  // ---- content -----------------------------------------------------------------------------------------------

  predicate Refreshes(s: State, a: Action, h: Home) {
    && a.ResumeWriter? && CanResume(s, a.id) && s.writers[a.id].home == h
    && !s.fetches[s.writers[a.id].stage.fetch].outcome.Failed?
  }

  lemma BeginWriteKeepsEntries(s: State, node: string, home: Home, cached: Option<Entry>, h: Home)
    requires h in s.entries && cached == CachedAt(s, home)
    ensures var s' := BeginWrite(s, node, home, cached); h in s'.entries && s'.entries[h] == s.entries[h]
  {
    RecoverFrame(s, cached, home, TransientActive);
    FetchOnceFrame(s.(transientUntil := None), cached);
  }

  lemma RequestKeepsEntries(s: State, node: string, h: Home)
    requires h in s.entries
    ensures var s' := Request(s, node); h in s'.entries && s'.entries[h] == s.entries[h]
  {
    var s' := OpenHome(s, node);
    BeginWriteKeepsEntries(s', node, s'.homes[node], CachedAt(s', s'.homes[node]), h);
  }

  lemma ResumeKeepsContent(s: State, id: nat, h: Home)
    requires Writers(s) && CanResume(s, id) && h in s.entries && s.entries[h].error.None?
    ensures var s' := Resume(s, id);
            && h in s'.entries && s'.entries[h].error.None?
            && (!Refreshes(s, ResumeWriter(id), h) ==> s'.entries[h] == s.entries[h])
  {
    var w := s.writers[id];
    FinishStores(s, w.cached, w.home, s.fetches[w.stage.fetch].outcome);
  }

  lemma OtherKeepsEntries(s: State, a: Action, h: Home, parse: string -> set<string>)
    requires Enabled(s, a) && h in s.entries && !a.AskFor? && !a.ResumeWriter? && a != ClearMap(h.node)
    requires HomesOwned(s.homes, s.writers)
    ensures var s' := Step(s, a, parse); h in s'.entries && s'.entries[h] == s.entries[h]
  {
    if a.Reply? {
      ReceiveFrame(s, a.id, a.reply, parse);
    }
  }

  /** Clearing apart, content stays content; only a reply that confirms or replaces it changes it, no failure does. */
  lemma FailuresLoseNothing(now: int, actions: seq<Action>, a: Action, h: Home, parse: string -> set<string>)
    requires var s := Run(now, actions, parse).s; h in s.entries && s.entries[h].error.None?
    requires a != ClearMap(h.node)
    ensures var w := Run(now, actions, parse);
            var s' := Next(w, a, parse).s;
            && h in s'.entries && s'.entries[h].error.None?
            && (!Refreshes(w.s, a, h) ==> s'.entries[h] == w.s.entries[h])
  {
    RunSafe(now, actions, parse);
    var s := Run(now, actions, parse).s;
    if Enabled(s, a) {
      match a
      case AskFor(node) => RequestKeepsEntries(s, node, h);
      case ResumeWriter(id) => ResumeKeepsContent(s, id, h);
      case _ => OtherKeepsEntries(s, a, h, parse);
    }
  }

  predicate WaitsFor(s: State, id: nat, f: nat) {
    id in s.writers && s.writers[id].stage == Awaiting(f)
  }

  /** A page that answers the shared fetch reaches every node that waits for it: its map then holds the parse of that
      very page with its validators, fresh, and so does the answer. */
  lemma PageReachesWaiter(s: State, f: nat, id: nat, body: string, etag: string, lastModified: string,
                          parse: string -> set<string>)
    requires IsCalling(s, f) && WaitsFor(s, id, f)
    ensures var landed := Land(Receive(s, f, Page(body, etag, lastModified), parse), f);
            && CanResume(landed, id)
            && (var stored := Resume(landed, id);
                var home := s.writers[id].home;
                && home in stored.entries
                && stored.entries[home] == Entry(parse(body), s.now, etag, lastModified, None)
                && stored.writers[id].stage == Done(stored.entries[home])
                && IsFresh(stored, stored.entries[home]))
  {
    var landed := Land(Receive(s, f, Page(body, etag, lastModified), parse), f);
    var w := s.writers[id];
    assert landed.writers == s.writers && landed.fetches[f] == Resolved(Parsed(parse(body), etag, lastModified));
    FinishStores(landed, w.cached, w.home, landed.fetches[f].outcome);
  }

  // ---- failures without a message ------------------------------------------------------------------------------

  /** The failure carries a text. Axios wraps an `AggregateError` with its empty message, so this can fail. */
  predicate Named(f: Failure) {
    |Message(f)| > 0
  }

  predicate NamedEntry(e: Entry) {
    e.error.Some? ==> IsError(e)
  }

  predicate NamedFetch(f: Fetch) {
    (f.Settled? || f.Resolved?) && f.outcome.Failed? ==> Named(f.outcome.failure)
  }

  ghost predicate EntriesNamed(entries: map<Home, Entry>) {
    forall h :: h in entries ==> NamedEntry(entries[h])
  }

  ghost predicate CapturesNamed(writers: map<nat, Writer>) {
    forall id :: id in writers && writers[id].cached.Some? ==> NamedEntry(writers[id].cached.value)
  }

  ghost predicate FetchesNamed(fetches: map<nat, Fetch>) {
    forall id :: id in fetches ==> NamedFetch(fetches[id])
  }

  ghost predicate AllNamed(s: State) {
    EntriesNamed(s.entries) && CapturesNamed(s.writers) && FetchesNamed(s.fetches)
  }

  predicate NamesItsFailure(a: Action) {
    a.Reply? && a.reply.Lost? ==> |a.reply.message| > 0
  }

  lemma FetchOnceNamed(s: State, cached: Option<Entry>)
    requires FetchesNamed(s.fetches)
    ensures FetchesNamed(FetchOnce(s, cached).0.fetches)
  {
    assert Named(LimitActive);
  }

  lemma ReceiveNamed(s: State, id: nat, reply: Reply, parse: string -> set<string>)
    requires FetchesNamed(s.fetches) && Enabled(s, Reply(id, reply)) && NamesItsFailure(Reply(id, reply))
    ensures FetchesNamed(Receive(s, id, reply, parse).fetches)
  {
    assert Named(UpstreamLimit);
  }

  lemma BeginWriteNamed(s: State, node: string, home: Home, cached: Option<Entry>)
    requires AllNamed(s) && cached == CachedAt(s, home)
    ensures AllNamed(BeginWrite(s, node, home, cached))
  {
    if ActiveUntil(s.transientUntil, s.now) {
      assert Named(TransientActive);
      RecoverFrame(s, cached, home, TransientActive);
    } else {
      FetchOnceNamed(s.(transientUntil := None), cached);
      FetchOnceFrame(s.(transientUntil := None), cached);
    }
  }

  lemma ResumeNamed(s: State, id: nat)
    requires AllNamed(s) && CanResume(s, id)
    ensures AllNamed(Resume(s, id))
  {
    var w := s.writers[id];
    var o := s.fetches[w.stage.fetch].outcome;
    FinishStores(s, w.cached, w.home, o);
    assert NamedFetch(s.fetches[w.stage.fetch]);
    if o.Failed? {
      RecoverFrame(s, w.cached, w.home, o.failure);
    }
  }

  lemma StepNamed(s: State, a: Action, parse: string -> set<string>)
    requires AllNamed(s) && Enabled(s, a) && NamesItsFailure(a)
    ensures AllNamed(Step(s, a, parse))
  {
    match a
    case AskFor(node) =>
      var s' := OpenHome(s, node);
      BeginWriteNamed(s', node, s'.homes[node], CachedAt(s', s'.homes[node]));
    case Reply(id, reply) => ReceiveNamed(s, id, reply, parse);
    case ResumeWriter(id) => ResumeNamed(s, id);
    case _ =>
  }

  lemma {:induction false} RunNamed(now: int, actions: seq<Action>, parse: string -> set<string>)
    requires forall a :: a in actions ==> NamesItsFailure(a)
    ensures AllNamed(Run(now, actions, parse).s)
  {
    if |actions| > 0 {
      var n := |actions| - 1;
      RunNamed(now, actions[..n], parse);
      var w := Run(now, actions[..n], parse);
      assert NamesItsFailure(actions[n]);
      if Enabled(w.s, actions[n]) {
        StepNamed(w.s, actions[n], parse);
      }
    }
  }

  /** As long as failures carry a message, every cached list the service takes for content is the parse of a body
      upstream served, and every other one is an empty error entry. */
  lemma ContentComesFromUpstream(now: int, actions: seq<Action>, parse: string -> set<string>, h: Home)
    requires forall a :: a in actions ==> NamesItsFailure(a)
    requires h in Run(now, actions, parse).s.entries
    ensures var w := Run(now, actions, parse);
            var e := w.s.entries[h];
            if IsError(e) then e.domains == {} else FromPage(e.domains, e.etag, e.lastModified, w.pages, parse)
  {
    RunSafe(now, actions, parse);
    RunNamed(now, actions, parse);
    assert Genuine(Run(now, actions, parse).s.entries[h], Run(now, actions, parse).pages, parse);
  }

  /** Without that condition only this much holds: a list taken for content is from upstream or the empty remains of a
      failure without a message. */
  lemma ContentOrNamelessFailure(now: int, actions: seq<Action>, parse: string -> set<string>, h: Home)
    requires h in Run(now, actions, parse).s.entries
    ensures var w := Run(now, actions, parse);
            var e := w.s.entries[h];
            !IsError(e) ==> FromPage(e.domains, e.etag, e.lastModified, w.pages, parse) || (e.domains == {} && e.error == Some(""))
  {
    RunSafe(now, actions, parse);
    assert Genuine(Run(now, actions, parse).s.entries[h], Run(now, actions, parse).pages, parse);
  }

  /** A failure stored for a node without an entry is taken for content exactly when its message is empty. */
  lemma FailureTakenForContentIff(s: State, id: nat)
    requires CanResume(s, id) && s.fetches[s.writers[id].stage.fetch].outcome.Failed? && s.writers[id].cached.None?
    ensures var s' := Resume(s, id);
            var home := s.writers[id].home;
            && home in s'.entries
            && (!IsError(s'.entries[home]) <==> |Message(s.fetches[s.writers[id].stage.fetch].outcome.failure)| == 0)
  {
    var w := s.writers[id];
    RecoverFrame(s, w.cached, w.home, s.fetches[w.stage.fetch].outcome.failure);
  }

  /** What that costs: the node then serves the empty list for a day without asking upstream again, even during the pause
      that a transient failure starts. */
  lemma NamelessFailureIsServed(s: State, id: nat, node: string, transient: bool, ms: nat, parse: string -> set<string>)
    requires CanResume(s, id) && s.writers[id].cached.None? && s.writers[id].node == node
    requires node in s.homes && s.homes[node] == s.writers[id].home
    requires s.fetches[s.writers[id].stage.fetch].outcome == Failed(Network("", transient))
    requires ms < REFRESH_INTERVAL
    ensures var later := Step(Resume(s, id), Tick(ms), parse);
            && node in later.homes && later.homes[node] in later.entries
            && Request(later, node) == later && later.entries[later.homes[node]].domains == {}
  {
    var w := s.writers[id];
    FinishStores(s, w.cached, w.home, Failed(Network("", transient)));
    RecoverFrame(s, w.cached, w.home, Network("", transient));
  }
}
