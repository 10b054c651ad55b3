/** What a 304 confirms, when the fetch it answers is shared by several nodes. */
module ListCacheSharing {
  import opened Options
  import opened ListCacheModel
  import opened ListCacheSafety
  import opened ListCacheRuns
  import opened ListCacheTheorems

  // ---- the history of confirmations --------------------------------------------------------------------------

  predicate IsUnchanged(f: Fetch) {
    (f.Settled? || f.Resolved?) && f.outcome.NotModified?
  }

  /** Every fetch that got a 304 is recorded with the entry whose validators it sent. */
  ghost predicate Recorded(fetches: map<nat, Fetch>, confirmed: map<nat, Option<Entry>>) {
    forall f :: f in fetches && IsUnchanged(fetches[f]) ==> f in confirmed
  }

  ghost predicate ConfirmedGenuine(confirmed: map<nat, Option<Entry>>, pages: set<Reply>, parse: string -> set<string>) {
    forall f :: f in confirmed ==> MaybeGenuine(confirmed[f], pages, parse)
  }

  lemma FetchOnceRecorded(s: State, cached: Option<Entry>, confirmed: map<nat, Option<Entry>>)
    requires Recorded(s.fetches, confirmed)
    ensures Recorded(FetchOnce(s, cached).0.fetches, confirmed)
  {
  }

  lemma RequestRecorded(s: State, node: string, confirmed: map<nat, Option<Entry>>)
    requires Recorded(s.fetches, confirmed)
    ensures Recorded(Request(s, node).fetches, confirmed)
  {
    var s' := OpenHome(s, node);
    var cached := CachedAt(s', s'.homes[node]);
    RecoverFrame(s', cached, s'.homes[node], TransientActive);
    FetchOnceRecorded(s'.(transientUntil := None), cached, confirmed);
  }

  lemma ReplyRecorded(w: World, id: nat, reply: Reply, parse: string -> set<string>)
    requires Recorded(w.s.fetches, w.confirmed) && Enabled(w.s, Reply(id, reply))
    ensures var w' := Next(w, Reply(id, reply), parse); Recorded(w'.s.fetches, w'.confirmed)
  {
    ReceiveFrame(w.s, id, reply, parse);
  }

  lemma NextRecorded(w: World, a: Action, parse: string -> set<string>)
    requires Recorded(w.s.fetches, w.confirmed)
    ensures var w' := Next(w, a, parse); Recorded(w'.s.fetches, w'.confirmed)
  {
    if Enabled(w.s, a) {
      match a
      case AskFor(node) => RequestRecorded(w.s, node, w.confirmed);
      case Reply(id, reply) => ReplyRecorded(w, id, reply, parse);
      case ResumeWriter(id) => ResumeLeavesFetches(w.s, id);
      case _ =>
    }
  }

  lemma NextConfirmedGenuine(w: World, a: Action, parse: string -> set<string>)
    requires ConfirmedGenuine(w.confirmed, w.pages, parse) && AllGenuine(w.s, w.pages, parse)
    ensures var w' := Next(w, a, parse); ConfirmedGenuine(w'.confirmed, w'.pages, parse)
  {
    var w' := Next(w, a, parse);
    assert w.pages <= w'.pages;
    forall f | f in w'.confirmed ensures MaybeGenuine(w'.confirmed[f], w'.pages, parse) {
      if f in w.confirmed && w'.confirmed[f] == w.confirmed[f] {
        assert MaybeGenuine(w.confirmed[f], w.pages, parse);
      } else {
        assert FetchGenuine(w.s.fetches[f], w.pages, parse);
      }
    }
  }

  lemma {:induction false} RunConfirms(now: int, actions: seq<Action>, parse: string -> set<string>)
    ensures var w := Run(now, actions, parse);
            Recorded(w.s.fetches, w.confirmed) && ConfirmedGenuine(w.confirmed, w.pages, parse)
  {
    if |actions| > 0 {
      var n := |actions| - 1;
      RunConfirms(now, actions[..n], parse);
      RunSafe(now, actions[..n], parse);
      NextRecorded(Run(now, actions[..n], parse), actions[n], parse);
      NextConfirmedGenuine(Run(now, actions[..n], parse), actions[n], parse);
    }
  }

  // ---- which list is stored ------------------------------------------------------------------------------------

  /** The list of an entry that is not an error. */
  function Content(e: Option<Entry>): Option<set<string>> {
    if e.Some? && e.value.error.None? then Some(e.value.domains) else None
  }

  predicate Revalidates(s: State, id: nat) {
    CanResume(s, id) && s.fetches[s.writers[id].stage.fetch].outcome.NotModified?
  }

  /** The entry that the 304 for the writer's fetch confirmed. */
  function Confirmed(w: World, id: nat): Option<Entry>
    requires id in w.s.writers && w.s.writers[id].stage.Awaiting?
  {
    var f := w.s.writers[id].stage.fetch;
    if f in w.confirmed then w.confirmed[f] else None
  }

  /** After the writer has resumed, its map holds the confirmed list, fetched just now. */
  predicate StoresConfirmed(w: World, id: nat)
    requires Revalidates(w.s, id)
  {
    var s', home := Resume(w.s, id), w.s.writers[id].home;
    && home in s'.entries && s'.entries[home].fetchedAt == w.s.now
    && Content(Confirmed(w, id)).Some? && Content(CachedAt(s', home)) == Content(Confirmed(w, id))
  }

  lemma ResumedContent(w: World, id: nat)
    requires Revalidates(w.s, id) && Snapshots(w.s.writers, w.s.entries)
    ensures var s', writer := Resume(w.s, id), w.s.writers[id];
            && (writer.cached.Some? <==> writer.home in s'.entries)
            && (writer.cached.Some? ==> s'.entries[writer.home] == writer.cached.value.(fetchedAt := w.s.now))
  {
  }

  /** In every run a writer resumed on a 304 stores the list that upstream confirmed exactly if the entry it captured has
      that list. */
  lemma RevalidationIsRightIff(now: int, actions: seq<Action>, parse: string -> set<string>, id: nat)
    requires Revalidates(Run(now, actions, parse).s, id)
    ensures var w := Run(now, actions, parse);
            && w.s.writers[id].stage.fetch in w.confirmed
            && (StoresConfirmed(w, id) <==>
                Content(Confirmed(w, id)).Some? && Content(w.s.writers[id].cached) == Content(Confirmed(w, id)))
  {
    RunSafe(now, actions, parse);
    RunConfirms(now, actions, parse);
    ResumedContent(Run(now, actions, parse), id);
  }

  // ---- what the validators tell ----------------------------------------------------------------------------------

  predicate HasValidators(e: Option<Entry>) {
    e.Some? && (|e.value.etag| > 0 || |e.value.lastModified| > 0)
  }

  predicate SameValidators(a: Option<Entry>, b: Option<Entry>) {
    && a.Some? && b.Some?
    && a.value.etag == b.value.etag && a.value.lastModified == b.value.lastModified
  }

  predicate Alike(p: Reply, q: Reply) {
    p.Page? && q.Page? && p.etag == q.etag && p.lastModified == q.lastModified
  }

  /** Upstream keeps section 8.8 of RFC 9110: pages with the same validators, if they have any, have the same content. */
  ghost predicate ValidatorsIdentify(pages: set<Reply>) {
    forall p, q :: p in pages && q in pages && Alike(p, q) && (|p.etag| > 0 || |p.lastModified| > 0) ==> p.body == q.body
  }

  /** Upstream changes the validators only together with the list. */
  ghost predicate ListsIdentify(pages: set<Reply>, parse: string -> set<string>) {
    forall p, q :: p in pages && q in pages && p.Page? && q.Page? && parse(p.body) == parse(q.body) ==> Alike(p, q)
  }

  lemma PageOf(e: Entry, pages: set<Reply>, parse: string -> set<string>) returns (p: Reply)
    requires Genuine(e, pages, parse) && e.error.None?
    ensures p in pages && p.Page? && e.domains == parse(p.body) && e.etag == p.etag && e.lastModified == p.lastModified
  {
    p :| p in pages && p.Page? && e.domains == parse(p.body) && e.etag == p.etag && e.lastModified == p.lastModified;
  }

  lemma SameValidatorsSameContent(a: Entry, b: Entry, pages: set<Reply>, parse: string -> set<string>)
    requires Genuine(a, pages, parse) && Genuine(b, pages, parse) && ValidatorsIdentify(pages)
    requires SameValidators(Some(a), Some(b)) && HasValidators(Some(b))
    ensures Content(Some(a)).Some? && Content(Some(a)) == Content(Some(b))
  {
    var p := PageOf(a, pages, parse);
    var q := PageOf(b, pages, parse);
    assert Alike(p, q);
  }

  lemma SameContentSameValidators(a: Entry, b: Entry, pages: set<Reply>, parse: string -> set<string>)
    requires Genuine(a, pages, parse) && Genuine(b, pages, parse) && ListsIdentify(pages, parse)
    requires Content(Some(a)).Some? && Content(Some(a)) == Content(Some(b))
    ensures SameValidators(Some(a), Some(b))
  {
    var p := PageOf(a, pages, parse);
    var q := PageOf(b, pages, parse);
    assert Alike(p, q);
  }

  lemma CapturedIsGenuine(now: int, actions: seq<Action>, parse: string -> set<string>, id: nat)
    requires Revalidates(Run(now, actions, parse).s, id)
    ensures var w := Run(now, actions, parse);
            && MaybeGenuine(w.s.writers[id].cached, w.pages, parse)
            && MaybeGenuine(Confirmed(w, id), w.pages, parse)
  {
    RunSafe(now, actions, parse);
    RunConfirms(now, actions, parse);
    assert Recorded(Run(now, actions, parse).s.fetches, Run(now, actions, parse).confirmed);
  }

  /** If the captured entry has the validators that were sent, the confirmed list is stored. */
  lemma SameValidatorsAreEnough(now: int, actions: seq<Action>, parse: string -> set<string>, id: nat)
    requires var w := Run(now, actions, parse);
             && Revalidates(w.s, id) && ValidatorsIdentify(w.pages)
             && HasValidators(Confirmed(w, id)) && SameValidators(w.s.writers[id].cached, Confirmed(w, id))
    ensures StoresConfirmed(Run(now, actions, parse), id)
  {
    var w := Run(now, actions, parse);
    CapturedIsGenuine(now, actions, parse, id);
    SameValidatorsSameContent(w.s.writers[id].cached.value, Confirmed(w, id).value, w.pages, parse);
    RevalidationIsRightIff(now, actions, parse, id);
  }

  /** And only then, if upstream gives new validators to new lists only: a comparison of validators before the writer
      resumes would tell. */
  lemma ValidatorsDecideIff(now: int, actions: seq<Action>, parse: string -> set<string>, id: nat)
    requires var w := Run(now, actions, parse);
             && Revalidates(w.s, id) && HasValidators(Confirmed(w, id))
             && ValidatorsIdentify(w.pages) && ListsIdentify(w.pages, parse)
    ensures var w := Run(now, actions, parse);
            StoresConfirmed(w, id) <==> SameValidators(w.s.writers[id].cached, Confirmed(w, id))
  {
    var w := Run(now, actions, parse);
    RevalidationIsRightIff(now, actions, parse, id);
    if SameValidators(w.s.writers[id].cached, Confirmed(w, id)) {
      SameValidatorsAreEnough(now, actions, parse, id);
    }
    if StoresConfirmed(w, id) {
      CapturedIsGenuine(now, actions, parse, id);
      SameContentSameValidators(w.s.writers[id].cached.value, Confirmed(w, id).value, w.pages, parse);
    }
  }

  // ---- a single node -----------------------------------------------------------------------------------------

  /** Somebody waits for the shared fetch. */
  ghost predicate HasWaiter(s: State) {
    s.inFlight.Some? ==> exists id :: WaitsFor(s, id, s.inFlight.value)
  }

  /** Every waiting writer captured the entry whose validators its fetch sends or has sent. */
  ghost predicate OwnValidators(s: State, confirmed: map<nat, Option<Entry>>) {
    forall id, f :: WaitsFor(s, id, f) && f in s.fetches ==>
      && (Active(s.fetches[f]) ==> s.fetches[f].sent == s.writers[id].cached)
      && (IsUnchanged(s.fetches[f]) ==> f in confirmed && confirmed[f] == s.writers[id].cached)
  }

  ghost predicate Alone(w: World, node: string) {
    && HasWaiter(w.s) && OwnValidators(w.s, w.confirmed)
    && forall id :: id in w.s.writers ==> w.s.writers[id].node == node
  }

  predicate AsksFor(a: Action, node: string) {
    a.AskFor? ==> a.node == node
  }

  lemma FirstFetch(s: State, cached: Option<Entry>)
    requires s.inFlight.None?
    ensures var (s', f) := FetchOnce(s, cached);
            && f in s'.fetches && (s'.inFlight.Some? ==> s'.inFlight == Some(f))
            && !IsUnchanged(s'.fetches[f]) && (Active(s'.fetches[f]) ==> s'.fetches[f].sent == cached)
  {
  }

  lemma FirstWriter(s: State, w: Writer, confirmed: map<nat, Option<Entry>>)
    requires |s.writers| == 0
    requires w.stage.Done? ==> s.inFlight.None?
    requires w.stage.Awaiting? ==>
               var f := w.stage.fetch;
               && f in s.fetches && (s.inFlight.Some? ==> s.inFlight == Some(f))
               && !IsUnchanged(s.fetches[f]) && (Active(s.fetches[f]) ==> s.fetches[f].sent == w.cached)
    ensures var s' := AddWriter(s, w);
            && HasWaiter(s') && OwnValidators(s', confirmed)
            && forall id :: id in s'.writers ==> s'.writers[id].node == w.node
  {
    var s' := AddWriter(s, w);
    assert s.writers.Keys == {};
    if s'.inFlight.Some? {
      assert WaitsFor(s', s.next, s'.inFlight.value);
    }
  }

  /** A first writer shares its fetch with nobody. */
  lemma BeginAlone(s: State, node: string, home: Home, cached: Option<Entry>, confirmed: map<nat, Option<Entry>>)
    requires |s.writers| == 0 && s.inFlight.None?
    ensures var s' := BeginWrite(s, node, home, cached);
            && HasWaiter(s') && OwnValidators(s', confirmed)
            && forall id :: id in s'.writers ==> s'.writers[id].node == node
  {
    if ActiveUntil(s.transientUntil, s.now) {
      RecoverFrame(s, cached, home, TransientActive);
      var (r, e) := Recover(s, cached, home, TransientActive);
      FirstWriter(r, Writer(node, cached, home, Done(e)), confirmed);
    } else {
      FirstFetch(s.(transientUntil := None), cached);
      FetchOnceFrame(s.(transientUntil := None), cached);
      var (r, f) := FetchOnce(s.(transientUntil := None), cached);
      FirstWriter(r, Writer(node, cached, home, Awaiting(f)), confirmed);
    }
  }

  lemma RequestAlone(w: World, node: string)
    requires Alone(w, node) && Writers(w.s)
    ensures var s' := Request(w.s, node);
            && HasWaiter(s') && OwnValidators(s', w.confirmed)
            && forall id :: id in s'.writers ==> s'.writers[id].node == node
  {
    var s := OpenHome(w.s, node);
    assert s.writers == w.s.writers && s.fetches == w.s.fetches && s.inFlight == w.s.inFlight;
    if s.inFlight.Some? {
      var id :| WaitsFor(w.s, id, s.inFlight.value);
      assert WaitsFor(s, id, s.inFlight.value);
    }
    forall id, f | WaitsFor(s, id, f) ensures WaitsFor(w.s, id, f) {
    }
    if node !in s.inFlightWrites {
      assert s.writers.Keys == {};
      BeginAlone(s, node, s.homes[node], CachedAt(s, s.homes[node]), w.confirmed);
    }
  }

  lemma ReceiveAlone(w: World, id: nat, reply: Reply, parse: string -> set<string>, node: string)
    requires Alone(w, node) && Enabled(w.s, Reply(id, reply))
    ensures Alone(Next(w, Reply(id, reply), parse), node)
  {
    var w' := Next(w, Reply(id, reply), parse);
    ReceiveFrame(w.s, id, reply, parse);
    if w.s.inFlight.Some? {
      var k :| WaitsFor(w.s, k, w.s.inFlight.value);
      assert WaitsFor(w'.s, k, w.s.inFlight.value);
    }
    assert Active(w.s.fetches[id]);
    forall k, f | WaitsFor(w'.s, k, f) && f in w'.s.fetches
      ensures Active(w'.s.fetches[f]) ==> w'.s.fetches[f].sent == w'.s.writers[k].cached
      ensures IsUnchanged(w'.s.fetches[f]) ==> f in w'.confirmed && w'.confirmed[f] == w'.s.writers[k].cached
    {
      assert WaitsFor(w.s, k, f);
    }
  }

  lemma ResumeAlone(w: World, id: nat, parse: string -> set<string>, node: string)
    requires Alone(w, node) && Fetches(w.s) && CanResume(w.s, id)
    ensures Alone(Next(w, ResumeWriter(id), parse), node)
  {
    var w' := Next(w, ResumeWriter(id), parse);
    var v := w.s.writers[id];
    FinishStores(w.s, v.cached, v.home, w.s.fetches[v.stage.fetch].outcome);
    forall k, f | WaitsFor(w'.s, k, f) ensures WaitsFor(w.s, k, f) && k != id {
    }
    if w.s.inFlight.Some? {
      var k :| WaitsFor(w.s, k, w.s.inFlight.value);
      assert WaitsFor(w'.s, k, w.s.inFlight.value);
    }
  }

  lemma OtherAlone(w: World, a: Action, parse: string -> set<string>, node: string)
    requires Alone(w, node) && Fetches(w.s) && Enabled(w.s, a)
    requires !a.AskFor? && !a.Reply? && !a.ResumeWriter?
    ensures Alone(Next(w, a, parse), node)
  {
    var w' := Next(w, a, parse);
    forall k, f | WaitsFor(w'.s, k, f) ensures WaitsFor(w.s, k, f) && w'.s.writers[k] == w.s.writers[k] {
    }
    if w'.s.inFlight.Some? {
      var k :| WaitsFor(w.s, k, w.s.inFlight.value);
      assert WaitsFor(w'.s, k, w.s.inFlight.value);
    }
  }

  lemma NextAlone(w: World, a: Action, parse: string -> set<string>, node: string)
    requires Alone(w, node) && Fetches(w.s) && Writers(w.s) && AsksFor(a, node)
    ensures Alone(Next(w, a, parse), node)
  {
    if Enabled(w.s, a) {
      match a
      case AskFor(_) => RequestAlone(w, node);
      case Reply(id, reply) => ReceiveAlone(w, id, reply, parse, node);
      case ResumeWriter(id) => ResumeAlone(w, id, parse, node);
      case _ => OtherAlone(w, a, parse, node);
    }
  }

  lemma {:induction false} RunAlone(now: int, actions: seq<Action>, parse: string -> set<string>, node: string)
    requires forall a :: a in actions ==> AsksFor(a, node)
    ensures Alone(Run(now, actions, parse), node)
  {
    if |actions| > 0 {
      var n := |actions| - 1;
      RunAlone(now, actions[..n], parse, node);
      RunSafe(now, actions[..n], parse);
      assert AsksFor(actions[n], node);
      NextAlone(Run(now, actions[..n], parse), actions[n], parse, node);
    }
  }

  /** When only one node asks for the URL, every 304 with something to confirm stores what it confirmed, whatever is
      cleared meanwhile. */
  lemma OneNodeStoresConfirmed(now: int, actions: seq<Action>, parse: string -> set<string>, node: string, id: nat)
    requires forall a :: a in actions ==> AsksFor(a, node)
    requires Revalidates(Run(now, actions, parse).s, id)
    ensures var w := Run(now, actions, parse); StoresConfirmed(w, id) <==> Content(Confirmed(w, id)).Some?
  {
    var w := Run(now, actions, parse);
    RunAlone(now, actions, parse, node);
    assert WaitsFor(w.s, id, w.s.writers[id].stage.fetch);
    RevalidationIsRightIff(now, actions, parse, id);
  }
}
