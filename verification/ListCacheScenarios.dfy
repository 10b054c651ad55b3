/** Runs from the empty cache that end where the service falls short of its promises. */
module ListCacheScenarios {
  import opened Options
  import opened ListCacheModel
  import opened ListCacheRuns
  import opened ListCacheTheorems
  import opened ListCacheSharing

  /** A run goes on. */
  function After(w: World, actions: seq<Action>, parse: string -> set<string>): World
    decreases |actions|
  {
    if |actions| == 0 then w else After(Next(w, actions[0], parse), actions[1..], parse)
  }

  lemma {:induction false} RunAfter(now: int, before: seq<Action>, actions: seq<Action>, parse: string -> set<string>)
    ensures Run(now, before + actions, parse) == After(Run(now, before, parse), actions, parse)
    decreases |actions|
  {
    if |actions| == 0 {
      assert before + actions == before;
    } else {
      var more := before + [actions[0]];
      assert more[..|more| - 1] == before;
      assert before + actions == more + actions[1..];
      RunAfter(now, more, actions[1..], parse);
    }
  }

  lemma AfterStep(w: World, a: Action, rest: seq<Action>, parse: string -> set<string>)
    ensures After(w, [a] + rest, parse) == After(Next(w, a, parse), rest, parse)
  {
    assert ([a] + rest)[1..] == rest;
  }

  lemma {:induction false} AfterConcat(w: World, xs: seq<Action>, ys: seq<Action>, parse: string -> set<string>)
    ensures After(w, xs + ys, parse) == After(After(w, xs, parse), ys, parse)
    decreases |xs|
  {
    if |xs| == 0 {
      assert xs + ys == ys;
    } else {
      assert (xs + ys)[1..] == xs[1..] + ys;
      AfterConcat(Next(w, xs[0], parse), xs[1..], ys, parse);
    }
  }

  lemma AfterTwo(w: World, a: Action, b: Action, parse: string -> set<string>)
    ensures After(w, [a, b], parse) == Next(Next(w, a, parse), b, parse)
  {
    AfterStep(w, a, [b], parse);
    AfterStep(Next(w, a, parse), b, [], parse);
    assert [a] + [b] == [a, b] && [b] + [] == [b];
  }

  // ---- a failure without a message ---------------------------------------------------------------------------

  /** Nothing is under way and nothing is refused. */
  predicate Idle(s: State) {
    s.inFlight.None? && s.limitedUntil.None? && s.transientUntil.None? && s.inFlightWrites == map[] && s.writers == map[]
  }

  /** The node has not asked before. */
  predicate IsNew(s: State, node: string) {
    node !in s.homes && Home(node, s.next) !in s.entries
  }

  lemma NewNodeAsks(s: State, node: string)
    requires Idle(s) && IsNew(s, node)
    ensures var home := Home(node, s.next);
            Request(s, node) == s.(homes := s.homes[node := home], inFlight := Some(s.next + 1),
                                   fetches := s.fetches[s.next + 1 := Calling(None, 0)],
                                   writers := map[s.next + 2 := Writer(node, None, home, Awaiting(s.next + 1))],
                                   inFlightWrites := map[node := s.next + 2], next := s.next + 3)
  {
  }

  /** The first node's first request, waiting for upstream. */
  predicate AsksFirst(s: State, node: string, attempt: nat) {
    && node in s.homes && s.homes[node] == Home(node, 0) && s.entries == map[] && s.inFlight == Some(1)
    && 1 in s.fetches && s.fetches[1] == Calling(None, attempt)
    && 2 in s.writers && s.writers[2] == Writer(node, None, Home(node, 0), Awaiting(1))
  }

  lemma FirstRequest(now: int, node: string, parse: string -> set<string>)
    ensures var w := Next(Run(now, [], parse), AskFor(node), parse);
            AsksFirst(w.s, node, 0) && w.pages == {}
  {
    NewNodeAsks(Start(now), node);
  }

  /** A lost reply, the delay, and the next request. */
  function Retried(attempt: nat): seq<Action>
    requires attempt < |RETRY_DELAYS|
  {
    [Reply(1, Lost("", true)), Tick(RETRY_DELAYS[attempt]), RetryTimer(1)]
  }

  lemma RetryRound(w: World, node: string, attempt: nat, parse: string -> set<string>)
    requires AsksFirst(w.s, node, attempt) && attempt < |RETRY_DELAYS|
    ensures var w' := After(w, Retried(attempt), parse);
            AsksFirst(w'.s, node, attempt + 1) && w'.pages == w.pages
  {
    var lost := Next(w, Reply(1, Lost("", true)), parse);
    assert lost.s.fetches[1] == Pausing(None, attempt + 1, w.s.now + RETRY_DELAYS[attempt]);
    var waited := Next(lost, Tick(RETRY_DELAYS[attempt]), parse);
    AfterStep(w, Reply(1, Lost("", true)), [Tick(RETRY_DELAYS[attempt]), RetryTimer(1)], parse);
    AfterStep(lost, Tick(RETRY_DELAYS[attempt]), [RetryTimer(1)], parse);
    AfterStep(waited, RetryTimer(1), [], parse);
    assert [RetryTimer(1)] + [] == [RetryTimer(1)];
  }

  /** The last reply is lost without a message; the writer stores what is left. */
  function Failing(transient: bool): seq<Action> {
    [Reply(1, Lost("", transient)), LandFetch(1), ResumeWriter(2)]
  }

  lemma FailingEnds(w: World, node: string, transient: bool, ms: nat, parse: string -> set<string>)
    requires AsksFirst(w.s, node, if transient then |RETRY_DELAYS| else 0) && ms < REFRESH_INTERVAL
    ensures var w' := After(After(w, Failing(transient), parse), [Tick(ms)], parse);
            && w'.pages == w.pages && Request(w'.s, node) == w'.s
            && node in w'.s.homes && w'.s.homes[node] in w'.s.entries && w'.s.entries[w'.s.homes[node]].domains == {}
  {
    var lost := Next(w, Reply(1, Lost("", transient)), parse);
    var landed := Next(lost, LandFetch(1), parse);
    AfterStep(w, Reply(1, Lost("", transient)), [LandFetch(1), ResumeWriter(2)], parse);
    AfterTwo(lost, LandFetch(1), ResumeWriter(2), parse);
    AfterStep(Next(landed, ResumeWriter(2), parse), Tick(ms), [], parse);
    assert Failing(transient) == [Reply(1, Lost("", transient))] + [LandFetch(1), ResumeWriter(2)];
    assert [Tick(ms)] + [] == [Tick(ms)];
    NamelessFailureIsServed(landed.s, 2, node, transient, ms, parse);
  }

  /** A node asks for the first time, up to its last request to upstream. */
  function FirstRequests(node: string, transient: bool): seq<Action> {
    if transient then [AskFor(node)] + Retried(0) + Retried(1) else [AskFor(node)]
  }

  lemma LastRequest(now: int, node: string, transient: bool, parse: string -> set<string>)
    ensures var w := Run(now, FirstRequests(node, transient), parse);
            AsksFirst(w.s, node, if transient then |RETRY_DELAYS| else 0) && w.pages == {}
  {
    FirstRequest(now, node, parse);
    assert [AskFor(node)][..0] == [];
    if transient {
      RetryRound(Run(now, [AskFor(node)], parse), node, 0, parse);
      RunAfter(now, [AskFor(node)], Retried(0), parse);
      RetryRound(Run(now, [AskFor(node)] + Retried(0), parse), node, 1, parse);
      RunAfter(now, [AskFor(node)] + Retried(0), Retried(1), parse);
    }
  }

  /** Every reply is lost without a message, and some time passes. */
  function NamelessRun(node: string, transient: bool, ms: nat): seq<Action> {
    FirstRequests(node, transient) + Failing(transient) + [Tick(ms)]
  }

  /** From the empty cache: for a day the node serves an empty list that no upstream page contains, without asking. */
  lemma NamelessRunServesNothing(now: int, node: string, transient: bool, ms: nat, parse: string -> set<string>)
    requires ms < REFRESH_INTERVAL
    ensures var w := Run(now, NamelessRun(node, transient, ms), parse);
            && w.pages == {} && Request(w.s, node) == w.s
            && node in w.s.homes && w.s.homes[node] in w.s.entries && w.s.entries[w.s.homes[node]].domains == {}
  {
    var before := FirstRequests(node, transient);
    LastRequest(now, node, transient, parse);
    RunAfter(now, before, Failing(transient), parse);
    RunAfter(now, before + Failing(transient), [Tick(ms)], parse);
    FailingEnds(Run(now, before, parse), node, transient, ms, parse);
  }

  // ---- a 304 for somebody else's list ----------------------------------------------------------------------------

  function Answered(f: nat, reply: Reply): seq<Action> {
    [Reply(f, reply), LandFetch(f)]
  }

  function Finished(id: nat): seq<Action> {
    [ResumeWriter(id), LeaveWriter(id)]
  }

  /** A node that has not asked before gets its list; `next` numbers the objects this makes. */
  function FirstPage(node: string, next: nat, page: Reply): seq<Action> {
    [AskFor(node)] + Answered(next + 1, page) + Finished(next + 2)
  }

  function EntryOf(page: Reply, now: int, parse: string -> set<string>): Entry
    requires page.Page?
  {
    Entry(parse(page.body), now, page.etag, page.lastModified, None)
  }

  function OutcomeOf(reply: Reply, parse: string -> set<string>): Outcome
    requires reply.Page? || reply.Unchanged?
  {
    if reply.Page? then Parsed(parse(reply.body), reply.etag, reply.lastModified) else NotModified
  }

  /** A fetch that is answered lets its waiters go on. */
  lemma AnswerLands(w: World, f: nat, reply: Reply, parse: string -> set<string>)
    requires IsCalling(w.s, f) && (reply.Page? || reply.Unchanged?)
    ensures After(w, Answered(f, reply), parse) ==
            w.(s := w.s.(fetches := w.s.fetches[f := Resolved(OutcomeOf(reply, parse))], inFlight := None,
                         limitedUntil := None, transientUntil := None),
               pauses := {}, pages := if reply.Page? then w.pages + {reply} else w.pages,
               confirmed := if reply.Page? then w.confirmed else w.confirmed[f := w.s.fetches[f].sent])
  {
    AfterTwo(w, Reply(f, reply), LandFetch(f), parse);
    var o := OutcomeOf(reply, parse);
    assert w.s.fetches[f := Settled(o)][f := Resolved(o)] == w.s.fetches[f := Resolved(o)];
  }

  /** The only writer stores a page and leaves. */
  lemma WriterStores(w: World, id: nat, page: Reply, parse: string -> set<string>)
    requires page.Page? && CanResume(w.s, id) && w.s.writers == map[id := w.s.writers[id]]
    requires w.s.inFlightWrites == map[w.s.writers[id].node := id]
    requires w.s.fetches[w.s.writers[id].stage.fetch] == Resolved(OutcomeOf(page, parse))
    ensures After(w, Finished(id), parse) ==
            w.(s := w.s.(entries := w.s.entries[w.s.writers[id].home := EntryOf(page, w.s.now, parse)],
                         writers := map[], inFlightWrites := map[]))
  {
    AfterTwo(w, ResumeWriter(id), LeaveWriter(id), parse);
    assert !FailsTransiently(w.s, id);
    var resumed := Next(w, ResumeWriter(id), parse);
    assert w.pauses + {} == w.pauses;
    assert resumed.s.writers == map[id := w.s.writers[id].(stage := Done(EntryOf(page, w.s.now, parse)))];
    assert resumed.s.writers - {id} == map[];
    assert resumed.s.inFlightWrites - {w.s.writers[id].node} == map[];
  }

  lemma AskStep(w: World, node: string, parse: string -> set<string>)
    ensures After(w, [AskFor(node)], parse) == w.(s := Request(w.s, node))
  {
    AfterStep(w, AskFor(node), [], parse);
    assert [AskFor(node)] + [] == [AskFor(node)];
  }

  /** A new node's request after the page has come. */
  function PageCame(w: World, node: string, page: Reply, parse: string -> set<string>): World
    requires page.Page?
  {
    var s, home, n := w.s, Home(node, w.s.next), w.s.next;
    w.(pauses := {}, pages := w.pages + {page},
       s := s.(homes := s.homes[node := home], fetches := s.fetches[n + 1 := Resolved(OutcomeOf(page, parse))],
               writers := map[n + 2 := Writer(node, None, home, Awaiting(n + 1))],
               inFlightWrites := map[node := n + 2], next := n + 3))
  }

  lemma FirstPageComes(w: World, node: string, page: Reply, parse: string -> set<string>)
    requires Idle(w.s) && IsNew(w.s, node) && page.Page?
    ensures After(w, [AskFor(node)] + Answered(w.s.next + 1, page), parse) == PageCame(w, node, page, parse)
  {
    AskStep(w, node, parse);
    AfterConcat(w, [AskFor(node)], Answered(w.s.next + 1, page), parse);
    NewNodeAsks(w.s, node);
    AnswerLands(w.(s := Request(w.s, node)), w.s.next + 1, page, parse);
    FetchTwice(w.s.fetches, w.s.next + 1, Calling(None, 0), Resolved(OutcomeOf(page, parse)));
  }

  /** The same when the writer has stored the page and left. */
  function PageStored(w: World, node: string, page: Reply, parse: string -> set<string>): World
    requires page.Page?
  {
    var s, home := w.s, Home(node, w.s.next);
    w.(pauses := {}, pages := w.pages + {page},
       s := s.(homes := s.homes[node := home], entries := s.entries[home := EntryOf(page, s.now, parse)],
               fetches := s.fetches[s.next + 1 := Resolved(OutcomeOf(page, parse))], next := s.next + 3))
  }

  lemma FirstPageFinishes(w: World, node: string, page: Reply, parse: string -> set<string>)
    requires Idle(w.s) && page.Page?
    ensures After(PageCame(w, node, page, parse), Finished(w.s.next + 2), parse) == PageStored(w, node, page, parse)
  {
    var came, stored := PageCame(w, node, page, parse), PageStored(w, node, page, parse);
    WriterStores(came, w.s.next + 2, page, parse);
    assert came.(s := came.s.(entries := stored.s.entries, writers := map[], inFlightWrites := map[])) == stored;
  }

  lemma FirstPageRun(w: World, node: string, page: Reply, parse: string -> set<string>)
    requires Idle(w.s) && IsNew(w.s, node) && page.Page?
    ensures After(w, FirstPage(node, w.s.next, page), parse) == PageStored(w, node, page, parse)
  {
    FirstPageComes(w, node, page, parse);
    AfterConcat(w, [AskFor(node)] + Answered(w.s.next + 1, page), Finished(w.s.next + 2), parse);
    FirstPageFinishes(w, node, page, parse);
  }

  lemma FetchTwice(fetches: map<nat, Fetch>, f: nat, a: Fetch, b: Fetch)
    ensures fetches[f := a][f := b] == fetches[f := b]
  {
  }

  /** The node's entry has expired, and it has no write under way. */
  predicate Expired(s: State, node: string) {
    && node in s.homes && s.homes[node] in s.entries && !IsFresh(s, s.entries[s.homes[node]])
    && node !in s.inFlightWrites && s.limitedUntil.None? && s.transientUntil.None?
  }

  lemma ExpiredNodeAsks(s: State, node: string)
    requires Expired(s, node)
    ensures var cached := Some(s.entries[s.homes[node]]);
            var f := if s.inFlight.Some? then s.inFlight.value else s.next;
            var id := if s.inFlight.Some? then s.next else s.next + 1;
            Request(s, node) == s.(inFlight := Some(f), next := id + 1,
                                   fetches := if s.inFlight.Some? then s.fetches else s.fetches[f := Calling(cached, 0)],
                                   inFlightWrites := s.inFlightWrites[node := id],
                                   writers := s.writers[id := Writer(node, cached, s.homes[node], Awaiting(f))])
  {
  }

  /** A day later node `b` asks first and sends its validators, node `a` joins, upstream answers 304. */
  function Shared(a: string, b: string, next: nat): seq<Action> {
    [Tick(REFRESH_INTERVAL)] + [AskFor(b)] + [AskFor(a)] + Answered(next, Unchanged)
  }

  /** Both nodes have an entry, and a day has passed. */
  predicate BothExpired(s: State, a: string, b: string) {
    a != b && Idle(s) && Expired(s, a) && Expired(s, b)
  }

  lemma BothAsk(s: State, a: string, b: string)
    requires BothExpired(s, a, b)
    ensures var s' := Request(Request(s, b), a);
            && s'.fetches == s.fetches[s.next := Calling(Some(s.entries[s.homes[b]]), 0)]
            && s.next + 2 in s'.writers
            && s'.writers[s.next + 2] == Writer(a, Some(s.entries[s.homes[a]]), s.homes[a], Awaiting(s.next))
            && s'.homes == s.homes && s'.entries == s.entries && s'.now == s.now
  {
    ExpiredNodeAsks(s, b);
    ExpiredNodeAsks(Request(s, b), a);
  }

  lemma DayPassesAndBothAsk(w: World, a: string, b: string, parse: string -> set<string>)
    requires BothExpired(w.s.(now := w.s.now + REFRESH_INTERVAL), a, b)
    ensures After(w, [Tick(REFRESH_INTERVAL)] + [AskFor(b)] + [AskFor(a)], parse) ==
            w.(s := Request(Request(w.s.(now := w.s.now + REFRESH_INTERVAL), b), a))
  {
    var waited := w.(s := w.s.(now := w.s.now + REFRESH_INTERVAL));
    AfterStep(w, Tick(REFRESH_INTERVAL), [], parse);
    assert [Tick(REFRESH_INTERVAL)] + [] == [Tick(REFRESH_INTERVAL)];
    AskStep(waited, b, parse);
    AskStep(waited.(s := Request(waited.s, b)), a, parse);
    AfterConcat(w, [Tick(REFRESH_INTERVAL)], [AskFor(b)], parse);
    AfterConcat(w, [Tick(REFRESH_INTERVAL)] + [AskFor(b)], [AskFor(a)], parse);
  }

  /** A 304 for the fetch that a writer waits for. */
  lemma UnchangedConfirms(w: World, f: nat, id: nat, parse: string -> set<string>)
    requires IsCalling(w.s, f) && WaitsFor(w.s, id, f)
    ensures var w' := After(w, Answered(f, Unchanged), parse);
            Revalidates(w'.s, id) && w'.s.writers[id] == w.s.writers[id] && Confirmed(w', id) == w.s.fetches[f].sent
  {
    AnswerLands(w, f, Unchanged, parse);
  }

  lemma SharedConfirms(w: World, a: string, b: string, parse: string -> set<string>)
    requires BothExpired(w.s.(now := w.s.now + REFRESH_INTERVAL), a, b)
    ensures var w', id := After(w, Shared(a, b, w.s.next), parse), w.s.next + 2;
            && Revalidates(w'.s, id)
            && w'.s.writers[id] == Writer(a, Some(w.s.entries[w.s.homes[a]]), w.s.homes[a], Awaiting(w.s.next))
            && Confirmed(w', id) == Some(w.s.entries[w.s.homes[b]])
  {
    var asked := [Tick(REFRESH_INTERVAL)] + [AskFor(b)] + [AskFor(a)];
    DayPassesAndBothAsk(w, a, b, parse);
    BothAsk(w.s.(now := w.s.now + REFRESH_INTERVAL), a, b);
    UnchangedConfirms(After(w, asked, parse), w.s.next, w.s.next + 2, parse);
    AfterConcat(w, asked, Answered(w.s.next, Unchanged), parse);
  }

  /** Two nodes fetch the list, with a change upstream in between. */
  function TwoPages(a: string, b: string, before: Reply, after: Reply): seq<Action> {
    FirstPage(a, 0, before) + FirstPage(b, 3, after)
  }

  lemma TwoPagesStored(now: int, a: string, b: string, before: Reply, after: Reply, parse: string -> set<string>)
    requires a != b && before.Page? && after.Page?
    ensures var w := Run(now, TwoPages(a, b, before, after), parse);
            && Idle(w.s) && w.s.next == 6 && w.s.now == now
            && w.s.homes == map[a := Home(a, 0), b := Home(b, 3)]
            && w.s.entries == map[Home(a, 0) := EntryOf(before, now, parse), Home(b, 3) := EntryOf(after, now, parse)]
  {
    var start := Run(now, [], parse);
    FirstPageRun(start, a, before, parse);
    RunAfter(now, [], FirstPage(a, 0, before), parse);
    assert [] + FirstPage(a, 0, before) == FirstPage(a, 0, before);
    var first := PageStored(start, a, before, parse);
    FirstPageRun(first, b, after, parse);
    RunAfter(now, FirstPage(a, 0, before), FirstPage(b, 3, after), parse);
  }

  /** From the empty cache: the first node's old list counts as current for another day, although upstream confirmed the
      other node's newer one. */
  lemma SharedRunStoresOldList(now: int, a: string, b: string, before: Reply, after: Reply, parse: string -> set<string>)
    requires a != b && before.Page? && after.Page? && parse(before.body) != parse(after.body)
    ensures var w := Run(now, TwoPages(a, b, before, after) + Shared(a, b, 6), parse);
            && Revalidates(w.s, 8) && Content(Confirmed(w, 8)) == Some(parse(after.body)) && !StoresConfirmed(w, 8)
            && (var s' := Resume(w.s, 8);
                && Home(a, 0) in s'.entries && s'.entries[Home(a, 0)].domains == parse(before.body)
                && IsFresh(s', s'.entries[Home(a, 0)]))
  {
    TwoPagesStored(now, a, b, before, after, parse);
    var w := Run(now, TwoPages(a, b, before, after), parse);
    SharedConfirms(w, a, b, parse);
    RunAfter(now, TwoPages(a, b, before, after), Shared(a, b, 6), parse);
    OldListIsStored(Run(now, TwoPages(a, b, before, after) + Shared(a, b, 6), parse), 8);
  }

  /** What a writer does with a 304. */
  lemma OldListIsStored(w: World, id: nat)
    requires Revalidates(w.s, id) && w.s.writers[id].cached.Some? && w.s.writers[id].cached.value.error.None?
    requires Content(Confirmed(w, id)) != Content(w.s.writers[id].cached)
    ensures var s', home, cached := Resume(w.s, id), w.s.writers[id].home, w.s.writers[id].cached.value;
            && home in s'.entries && s'.entries[home].domains == cached.domains && IsFresh(s', s'.entries[home])
            && !StoresConfirmed(w, id)
  {
  }
}
