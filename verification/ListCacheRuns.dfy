/** Whole runs of the list cache: back-off deadlines are kept, cached lists come from upstream, failures lose nothing. */
module ListCacheRuns {
  import opened Options
  import opened ListCacheModel
  import opened ListCacheSafety

  // ---- back-off deadlines ------------------------------------------------------------------------------------

  predicate Active(f: Fetch) {
    f.Calling? || f.Pausing?
  }

  /** A deadline that is still ahead is covered by the recorded one, and no fetch is under way. */
  ghost predicate Guarded(deadlines: set<int>, now: int, limitedUntil: Option<int>, fetches: map<nat, Fetch>) {
    forall d :: d in deadlines && d > now ==>
      limitedUntil.Some? && d <= limitedUntil.value && forall id :: id in fetches ==> !Active(fetches[id])
  }

  ghost predicate Deadlines(w: World) {
    Guarded(w.deadlines, w.s.now, w.s.limitedUntil, w.s.fetches)
  }

  lemma FetchOnceGuarded(s: State, cached: Option<Entry>, ds: set<int>)
    requires Guarded(ds, s.now, s.limitedUntil, s.fetches)
    ensures var s' := FetchOnce(s, cached).0; Guarded(ds, s'.now, s'.limitedUntil, s'.fetches)
  {
  }

  lemma RecoverFrame(s: State, cached: Option<Entry>, home: Home, f: Failure)
    ensures var r := Recover(s, cached, home, f);
            && r.0 == s.(entries := r.0.entries, transientUntil := r.0.transientUntil)
            && r.0.entries == (if cached.Some? then s.entries else s.entries[home := r.1])
            && (cached.Some? ==> r.1 == cached.value)
            && (cached.None? ==> r.1 == Entry({}, s.now, "", "", Some(Message(f))))
  {
  }

  lemma BeginWriteGuarded(s: State, node: string, home: Home, cached: Option<Entry>, ds: set<int>)
    requires Guarded(ds, s.now, s.limitedUntil, s.fetches)
    ensures var s' := BeginWrite(s, node, home, cached); Guarded(ds, s'.now, s'.limitedUntil, s'.fetches)
  {
    if ActiveUntil(s.transientUntil, s.now) {
      RecoverFrame(s, cached, home, TransientActive);
    } else {
      FetchOnceGuarded(s.(transientUntil := None), cached, ds);
    }
  }

  lemma ReceiveFrame(s: State, id: nat, reply: Reply, parse: string -> set<string>)
    requires Enabled(s, Reply(id, reply))
    ensures var s' := Receive(s, id, reply, parse);
            && id in s'.fetches && s'.fetches == s.fetches[id := s'.fetches[id]]
            && s' == s.(fetches := s'.fetches, limitedUntil := s'.limitedUntil, transientUntil := s'.transientUntil)
            && (Active(s'.fetches[id]) ==> s'.fetches[id].sent == s.fetches[id].sent)
            && !s'.fetches[id].Resolved?
            && (s'.fetches[id].Settled? && s'.fetches[id].outcome.NotModified? <==> reply.Unchanged?)
  {
  }

  lemma ReceiveGuarded(w: World, id: nat, reply: Reply, parse: string -> set<string>)
    requires Deadlines(w) && Fetches(w.s) && Enabled(w.s, Reply(id, reply))
    ensures Deadlines(Next(w, Reply(id, reply), parse))
  {
    assert Active(w.s.fetches[id]);
  }

  lemma StepDeadlines(w: World, a: Action, parse: string -> set<string>)
    requires Deadlines(w) && Fetches(w.s)
    ensures Deadlines(Next(w, a, parse))
  {
    if Enabled(w.s, a) {
      match a
      case AskFor(node) =>
        var s := OpenHome(w.s, node);
        BeginWriteGuarded(s, node, s.homes[node], CachedAt(s, s.homes[node]), w.deadlines);
      case Reply(id, reply) => ReceiveGuarded(w, id, reply, parse);
      case ResumeWriter(id) =>
        var v := w.s.writers[id];
        FinishStores(w.s, v.cached, v.home, w.s.fetches[v.stage.fetch].outcome);
      case _ =>
    }
  }

  predicate IsCalling(s: State, id: nat) {
    id in s.fetches && s.fetches[id].Calling?
  }

  /** An HTTP request goes out only when every deadline heard so far has passed. */
  lemma CallsWait(w: World, a: Action, id: nat, parse: string -> set<string>)
    requires Deadlines(w)
    requires !IsCalling(w.s, id) && IsCalling(Next(w, a, parse).s, id)
    ensures forall d :: d in w.deadlines ==> d <= w.s.now
  {
    match a
    case AskFor(node) => CallsWaitOnRequest(w, node, id);
    case RetryTimer(_) => assert Active(w.s.fetches[id]);
    case ResumeWriter(k) => ResumeLeavesFetches(w.s, k);
    case _ =>
  }

  lemma CallsWaitOnRequest(w: World, node: string, id: nat)
    requires Deadlines(w)
    requires !IsCalling(w.s, id) && IsCalling(Request(w.s, node), id)
    ensures forall d :: d in w.deadlines ==> d <= w.s.now
  {
    var s := OpenHome(w.s, node);
    var cached := CachedAt(s, s.homes[node]);
    RecoverFrame(s, cached, s.homes[node], TransientActive);
    assert !ActiveUntil(s.transientUntil, s.now);
    assert IsCalling(FetchOnce(s.(transientUntil := None), cached).0, id);
    assert !ActiveUntil(s.limitedUntil, s.now);
  }

  // ---- pauses after transient failures ---------------------------------------------------------------------------

  /** A pause that is still on is covered by the recorded one. */
  ghost predicate Paused(pauses: set<int>, now: int, transientUntil: Option<int>) {
    forall d :: d in pauses && d > now ==>
      transientUntil.Some? && d <= transientUntil.value && d <= now + TRANSIENT_BACKOFF
  }

  ghost predicate Pauses(w: World) {
    Paused(w.pauses, w.s.now, w.s.transientUntil)
  }

  lemma RequestPaused(s: State, node: string, pauses: set<int>)
    requires Paused(pauses, s.now, s.transientUntil)
    ensures var s' := Request(s, node); Paused(pauses, s'.now, s'.transientUntil)
  {
    var s' := OpenHome(s, node);
    var cached := CachedAt(s', s'.homes[node]);
    if ActiveUntil(s'.transientUntil, s'.now) {
      assert Recover(s', cached, s'.homes[node], TransientActive).0.transientUntil == s.transientUntil;
    } else {
      FetchOnceFrame(s'.(transientUntil := None), cached);
    }
  }

  lemma ResumePaused(w: World, id: nat, parse: string -> set<string>)
    requires Pauses(w) && CanResume(w.s, id)
    ensures Pauses(Next(w, ResumeWriter(id), parse))
  {
    var v := w.s.writers[id];
    FinishStores(w.s, v.cached, v.home, w.s.fetches[v.stage.fetch].outcome);
  }

  lemma StepPauses(w: World, a: Action, parse: string -> set<string>)
    requires Pauses(w)
    ensures Pauses(Next(w, a, parse))
  {
    if Enabled(w.s, a) {
      match a
      case AskFor(node) => RequestPaused(w.s, node, w.pauses);
      case ResumeWriter(id) => ResumePaused(w, id, parse);
      case _ =>
    }
  }

  /** A request starts a fetch only when no pause is on. */
  lemma RequestsPause(w: World, node: string, id: nat)
    requires Pauses(w)
    requires !IsCalling(w.s, id) && IsCalling(Request(w.s, node), id)
    ensures forall d :: d in w.pauses ==> d <= w.s.now
  {
    var s := OpenHome(w.s, node);
    var cached := CachedAt(s, s.homes[node]);
    RecoverFrame(s, cached, s.homes[node], TransientActive);
    assert !ActiveUntil(s.transientUntil, s.now);
  }

  // ---- where the lists come from -------------------------------------------------------------------------------

  /** Upstream has served a page with this list and these validators. */
  ghost predicate FromPage(domains: set<string>, etag: string, lastModified: string, pages: set<Reply>,
                           parse: string -> set<string>)
  {
    exists p :: p in pages && p.Page? && domains == parse(p.body) && etag == p.etag && lastModified == p.lastModified
  }

  /** An entry without an error message is a page upstream served; an error entry is empty and has no validators. */
  ghost predicate Genuine(e: Entry, pages: set<Reply>, parse: string -> set<string>) {
    if e.error.None? then FromPage(e.domains, e.etag, e.lastModified, pages, parse)
    else e.domains == {} && |e.etag| == 0 && |e.lastModified| == 0
  }

  ghost predicate MaybeGenuine(e: Option<Entry>, pages: set<Reply>, parse: string -> set<string>) {
    e.Some? ==> Genuine(e.value, pages, parse)
  }

  ghost predicate StoredGenuine(entries: map<Home, Entry>, pages: set<Reply>, parse: string -> set<string>) {
    forall h :: h in entries ==> Genuine(entries[h], pages, parse)
  }

  ghost predicate CapturedGenuine(writers: map<nat, Writer>, pages: set<Reply>, parse: string -> set<string>) {
    forall id :: id in writers ==> MaybeGenuine(writers[id].cached, pages, parse)
  }

  /** What a fetch has sent or received. */
  ghost predicate FetchGenuine(f: Fetch, pages: set<Reply>, parse: string -> set<string>) {
    if Active(f) then MaybeGenuine(f.sent, pages, parse)
    else f.outcome.Parsed? ==> FromPage(f.outcome.domains, f.outcome.etag, f.outcome.lastModified, pages, parse)
  }

  ghost predicate FetchesGenuine(fetches: map<nat, Fetch>, pages: set<Reply>, parse: string -> set<string>) {
    forall id :: id in fetches ==> FetchGenuine(fetches[id], pages, parse)
  }

  ghost predicate AllGenuine(s: State, pages: set<Reply>, parse: string -> set<string>) {
    && StoredGenuine(s.entries, pages, parse)
    && CapturedGenuine(s.writers, pages, parse)
    && FetchesGenuine(s.fetches, pages, parse)
  }

  lemma MorePages(s: State, pages: set<Reply>, more: set<Reply>, parse: string -> set<string>)
    requires AllGenuine(s, pages, parse) && pages <= more
    ensures AllGenuine(s, more, parse)
  {
    forall d, etag, lastModified | FromPage(d, etag, lastModified, pages, parse)
      ensures FromPage(d, etag, lastModified, more, parse)
    {
    }
  }

  lemma ReceiveGenuine(s: State, id: nat, reply: Reply, pages: set<Reply>, parse: string -> set<string>)
    requires AllGenuine(s, pages, parse) && Enabled(s, Reply(id, reply))
    requires reply.Page? ==> reply in pages
    ensures AllGenuine(Receive(s, id, reply, parse), pages, parse)
  {
    if reply.Page? {
      assert FromPage(parse(reply.body), reply.etag, reply.lastModified, pages, parse);
    }
  }

  lemma FetchOnceGenuine(s: State, cached: Option<Entry>, pages: set<Reply>, parse: string -> set<string>)
    requires FetchesGenuine(s.fetches, pages, parse) && MaybeGenuine(cached, pages, parse)
    ensures FetchesGenuine(FetchOnce(s, cached).0.fetches, pages, parse)
  {
  }

  lemma BeginWriteGenuine(s: State, node: string, home: Home, cached: Option<Entry>, pages: set<Reply>,
                          parse: string -> set<string>)
    requires AllGenuine(s, pages, parse) && cached == CachedAt(s, home)
    ensures AllGenuine(BeginWrite(s, node, home, cached), pages, parse)
  {
    if ActiveUntil(s.transientUntil, s.now) {
      RecoverFrame(s, cached, home, TransientActive);
    } else {
      var s' := s.(transientUntil := None);
      FetchOnceGenuine(s', cached, pages, parse);
      FetchOnceFrame(s', cached);
    }
  }

  lemma ResumeGenuine(s: State, id: nat, pages: set<Reply>, parse: string -> set<string>)
    requires AllGenuine(s, pages, parse) && CanResume(s, id)
    ensures AllGenuine(Resume(s, id), pages, parse)
  {
    var w := s.writers[id];
    var o := s.fetches[w.stage.fetch].outcome;
    var r := Finish(s, w.cached, w.home, o);
    FinishStores(s, w.cached, w.home, o);
    if r.0.entries != s.entries {
      assert FetchGenuine(s.fetches[w.stage.fetch], pages, parse);
      assert Genuine(r.1, pages, parse);
    }
  }

  lemma StepGenuine(w: World, a: Action, parse: string -> set<string>)
    requires AllGenuine(w.s, w.pages, parse)
    ensures var w' := Next(w, a, parse); AllGenuine(w'.s, w'.pages, parse)
  {
    if Enabled(w.s, a) {
      match a
      case AskFor(node) =>
        var s := OpenHome(w.s, node);
        BeginWriteGenuine(s, node, s.homes[node], CachedAt(s, s.homes[node]), w.pages, parse);
      case Reply(id, reply) =>
        var w' := Next(w, a, parse);
        MorePages(w.s, w.pages, w'.pages, parse);
        ReceiveGenuine(w.s, id, reply, w'.pages, parse);
      case ResumeWriter(id) => ResumeGenuine(w.s, id, w.pages, parse);
      case _ =>
    }
  }
}
