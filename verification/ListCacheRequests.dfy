/** When a request of a node leads to a fetch, and when the cache answers it. */
module ListCacheRequests {
  import opened Options
  import opened ListCacheModel
  import opened ListCacheSafety
  import opened ListCacheRuns
  import opened ListCacheTheorems

  predicate Off(until: Option<int>, now: int) {
    until.None? || until.value <= now
  }

  /** The node has nothing to serve: no entry, a failure whose pause is over, or a list that is a day old. */
  predicate NeedsFetch(s: State, node: string) {
    if node !in s.homes || s.homes[node] !in s.entries then true
    else
      var e := s.entries[s.homes[node]];
      if e.error.Some? && |e.error.value| > 0 then Off(s.transientUntil, s.now)
      else s.now - e.fetchedAt >= 86400000
  }

  predicate HasWriter(s: State, node: string) {
    exists id | id in s.writers :: s.writers[id].node == node
  }

  ghost predicate AddsWriter(s: State, s': State, node: string, id: nat) {
    id !in s.writers && id in s'.writers && s'.writers == s.writers[id := s'.writers[id]] && s'.writers[id].node == node
  }

  /** What the node's map holds when the request comes. */
  function Held(s: State, node: string): Option<Entry> {
    if node in s.homes then CachedAt(s, s.homes[node]) else None
  }

  ghost predicate AnswersFromCache(s: State, s': State, node: string) {
    s' == s.(homes := s'.homes, next := s'.next) && (node in s.homes ==> s' == s)
  }

  /** The fetch that a writer awaits is under way; it was before, or it sends the validators of the node's own entry. */
  ghost predicate AwaitsFetch(s: State, s': State, node: string, id: nat)
    requires id in s'.writers
  {
    && s'.writers[id].stage.Awaiting? && s'.writers[id].stage.fetch in s'.fetches
    && var f := s'.writers[id].stage.fetch;
       && s'.inFlight == Some(f) && !s'.fetches[f].Resolved? && s'.limitedUntil.None? && s'.transientUntil.None?
       && (if s.inFlight.Some? then s.inFlight == Some(f) && s'.fetches == s.fetches
           else s'.fetches == s.fetches[f := Calling(Held(s, node), 0)])
  }

  /** The request stores or keeps an entry for the node and is done, without a fetch. */
  ghost predicate FailsAtOnce(s: State, s': State, node: string, id: nat)
    requires id in s'.writers
  {
    && s'.writers[id].stage.Done? && s'.fetches == s.fetches && s'.inFlight == s.inFlight
    && (Held(s, node).Some? ==> s'.writers[id].stage.answer == Held(s, node).value)
    && (Held(s, node).None? ==> IsError(s'.writers[id].stage.answer) && s'.writers[id].stage.answer.domains == {})
  }

  /** The writer awaits a refusal. */
  ghost predicate IsRefused(s: State, s': State, id: nat)
    requires id in s'.writers
  {
    && s'.writers[id].stage.Awaiting? && s'.inFlight == s.inFlight
    && s'.writers[id].stage.fetch !in s.fetches && s'.writers[id].stage.fetch in s'.fetches
    && s'.fetches[s'.writers[id].stage.fetch] == Resolved(Failed(LimitActive))
  }

  lemma HasWriterIff(s: State, node: string)
    requires Writers(s)
    ensures HasWriter(s, node) <==> node in s.inFlightWrites
  {
    if node in s.inFlightWrites {
      assert s.inFlightWrites[node] in s.writers;
    }
  }

  lemma BeginAdds(s: State, node: string, home: Home, cached: Option<Entry>)
    requires Fetches(s) && Writers(s)
    ensures var s' := BeginWrite(s, node, home, cached);
            var id := s'.next - 1;
            && id >= 0 && AddsWriter(s, s', node, id) && s'.writers[id].cached == cached && s'.writers[id].home == home
  {
    if ActiveUntil(s.transientUntil, s.now) {
      RecoverFrame(s, cached, home, TransientActive);
    } else {
      FetchOnceFrame(s.(transientUntil := None), cached);
    }
  }

  lemma BeginAwaits(s: State, node: string, home: Home, cached: Option<Entry>)
    requires Fetches(s) && Writers(s) && node in s.homes && s.homes[node] == home && cached == CachedAt(s, home)
    ensures var s' := BeginWrite(s, node, home, cached);
            var id := s'.next - 1;
            && id >= 0 && id in s'.writers
            && (Off(s.transientUntil, s.now) && Off(s.limitedUntil, s.now) ==> AwaitsFetch(s, s', node, id))
            && (!Off(s.transientUntil, s.now) ==> FailsAtOnce(s, s', node, id))
            && (Off(s.transientUntil, s.now) && !Off(s.limitedUntil, s.now) ==> IsRefused(s, s', id))
  {
    BeginAdds(s, node, home, cached);
    if ActiveUntil(s.transientUntil, s.now) {
      RecoverFrame(s, cached, home, TransientActive);
    } else {
      FetchOnceIs(s.(transientUntil := None), cached);
    }
  }

  lemma FetchOnceIs(s: State, cached: Option<Entry>)
    requires Fetches(s)
    ensures var (s', f) := FetchOnce(s, cached);
            if !Off(s.limitedUntil, s.now) then
              s' == s.(fetches := s.fetches[s.next := Resolved(Failed(LimitActive))], next := s.next + 1) && f == s.next
            else if s.inFlight.Some? then s' == s.(limitedUntil := None) && f == s.inFlight.value
            else
              && s' == s.(limitedUntil := None, inFlight := Some(s.next), fetches := s.fetches[s.next := Calling(cached, 0)],
                          next := s.next + 1)
              && f == s.next
  {
  }

  lemma OpenHomeKeeps(s: State, node: string)
    requires Fetches(s) && Writers(s) && (node !in s.homes ==> Home(node, s.next) !in s.entries)
    ensures var s' := OpenHome(s, node);
            && s' == s.(homes := s'.homes, next := s'.next) && node in s'.homes && (node in s.homes ==> s' == s)
            && Fetches(s') && Writers(s')
            && CachedAt(s', s'.homes[node]) == Held(s, node) && (NeedsFetch(s, node) <==> NeedsFetch(s', node))
  {
    NextGrows(s.inFlight, s.fetches, s.next, OpenHome(s, node).next);
  }

  // ---- maps are numbered -------------------------------------------------------------------------------------

  /** No map has been given a number that is still free. */
  ghost predicate Numbered(s: State) {
    && (forall node :: node in s.homes ==> s.homes[node].number < s.next)
    && (forall id :: id in s.writers ==> s.writers[id].home.number < s.next)
    && (forall h :: h in s.entries ==> h.number < s.next)
  }

  lemma BeginNumbered(s: State, node: string, home: Home, cached: Option<Entry>)
    requires Numbered(s) && home.number < s.next
    ensures Numbered(BeginWrite(s, node, home, cached))
  {
    if ActiveUntil(s.transientUntil, s.now) {
      RecoverFrame(s, cached, home, TransientActive);
    } else {
      FetchOnceFrame(s.(transientUntil := None), cached);
    }
  }

  lemma StepNumbered(s: State, a: Action, parse: string -> set<string>)
    requires Numbered(s) && Enabled(s, a)
    ensures Numbered(Step(s, a, parse))
  {
    match a
    case AskFor(node) =>
      var s' := OpenHome(s, node);
      BeginNumbered(s', node, s'.homes[node], CachedAt(s', s'.homes[node]));
    case Reply(id, reply) => ReceiveFrame(s, id, reply, parse);
    case ResumeWriter(id) =>
      var w := s.writers[id];
      FinishStores(s, w.cached, w.home, s.fetches[w.stage.fetch].outcome);
    case _ =>
  }

  lemma {:induction false} RunNumbered(now: int, actions: seq<Action>, parse: string -> set<string>)
    ensures Numbered(Run(now, actions, parse).s)
  {
    if |actions| > 0 {
      var n := |actions| - 1;
      RunNumbered(now, actions[..n], parse);
      var w := Run(now, actions[..n], parse);
      if Enabled(w.s, actions[n]) {
        StepNumbered(w.s, actions[n], parse);
      }
    }
  }

  // ---- requests ------------------------------------------------------------------------------------------------

  lemma RequestIs(s: State, node: string)
    requires Fetches(s) && Writers(s) && Numbered(s)
    ensures var s1, s' := OpenHome(s, node), Request(s, node);
            s' == if NeedsFetch(s, node) && !HasWriter(s, node)
                  then BeginWrite(s1, node, s1.homes[node], CachedAt(s1, s1.homes[node])) else s1
  {
    OpenHomeKeeps(s, node);
    HasWriterIff(s, node);
  }

  lemma AddedWriter(s: State, s': State, node: string, id: nat, k: nat)
    requires AddsWriter(s, s', node, id) && AddsWriter(s, s', node, k)
    ensures id == k
  {
    assert k in s'.writers.Keys;
  }

  lemma RequestAdds(s: State, node: string) returns (id: nat)
    requires Fetches(s) && Writers(s) && Numbered(s) && NeedsFetch(s, node) && !HasWriter(s, node)
    ensures AddsWriter(s, Request(s, node), node, id)
  {
    RequestIs(s, node);
    OpenHomeKeeps(s, node);
    var s1 := OpenHome(s, node);
    BeginAdds(s1, node, s1.homes[node], CachedAt(s1, s1.homes[node]));
    id := Request(s, node).next - 1;
  }

  lemma RequestAnswers(s: State, node: string)
    requires Fetches(s) && Writers(s) && Numbered(s) && (HasWriter(s, node) || !NeedsFetch(s, node))
    ensures AnswersFromCache(s, Request(s, node), node) && Request(s, node).writers == s.writers
  {
    RequestIs(s, node);
    OpenHomeKeeps(s, node);
  }

  /** In every run: a request makes the node write exactly if it writes nothing yet and has nothing to serve; otherwise it
      changes nothing but opening the node's map. A failed list is asked for again as soon as its pause is over. */
  lemma RequestWritesIff(now: int, actions: seq<Action>, parse: string -> set<string>, node: string)
    ensures var s := Run(now, actions, parse).s;
            var s' := Request(s, node);
            && ((exists id :: AddsWriter(s, s', node, id)) <==> !HasWriter(s, node) && NeedsFetch(s, node))
            && (HasWriter(s, node) || !NeedsFetch(s, node) ==> AnswersFromCache(s, s', node))
  {
    var s := Run(now, actions, parse).s;
    RunSafe(now, actions, parse);
    RunNumbered(now, actions, parse);
    if NeedsFetch(s, node) && !HasWriter(s, node) {
      var id := RequestAdds(s, node);
    } else {
      RequestAnswers(s, node);
    }
  }

  ghost predicate Awaits(s: State, s': State, node: string, id: nat) {
    && id in s'.writers
    && (Off(s.transientUntil, s.now) && Off(s.limitedUntil, s.now) ==> AwaitsFetch(s, s', node, id))
    && (!Off(s.transientUntil, s.now) ==> FailsAtOnce(s, s', node, id))
    && (Off(s.transientUntil, s.now) && !Off(s.limitedUntil, s.now) ==> IsRefused(s, s', id))
  }

  lemma RequestAwaits(s: State, node: string)
    requires Fetches(s) && Writers(s) && Numbered(s) && NeedsFetch(s, node) && !HasWriter(s, node)
    ensures var s' := Request(s, node);
            var id := s'.next - 1;
            id >= 0 && AddsWriter(s, s', node, id) && Awaits(s, s', node, id)
  {
    RequestIs(s, node);
    OpenHomeKeeps(s, node);
    var s1, s' := OpenHome(s, node), Request(s, node);
    BeginAdds(s1, node, s1.homes[node], CachedAt(s1, s1.homes[node]));
    BeginAwaits(s1, node, s1.homes[node], CachedAt(s1, s1.homes[node]));
    SameAwaits(s, s1, s', node, s'.next - 1);
  }

  /** In every run: the writer that a request adds awaits a fetch under way when no back-off is on, has failed at once when
      the pause after a transient failure is on, and awaits a refusal when only the rate limit is. */
  lemma WriterAwaitsFetch(now: int, actions: seq<Action>, parse: string -> set<string>, node: string, id: nat)
    requires var s := Run(now, actions, parse).s; AddsWriter(s, Request(s, node), node, id)
    ensures var s := Run(now, actions, parse).s; Awaits(s, Request(s, node), node, id)
  {
    var s := Run(now, actions, parse).s;
    RunSafe(now, actions, parse);
    RunNumbered(now, actions, parse);
    RequestWritesIff(now, actions, parse, node);
    RequestAwaits(s, node);
    AddedWriter(s, Request(s, node), node, id, Request(s, node).next - 1);
  }

  /** Opening a map makes no difference to what a writer awaits. */
  lemma SameAwaits(s: State, s1: State, s': State, node: string, id: nat)
    requires s1 == s.(homes := s1.homes, next := s1.next) && id in s'.writers && Held(s1, node) == Held(s, node)
    ensures AwaitsFetch(s1, s', node, id) ==> AwaitsFetch(s, s', node, id)
    ensures FailsAtOnce(s1, s', node, id) ==> FailsAtOnce(s, s', node, id)
    ensures IsRefused(s1, s', id) ==> IsRefused(s, s', id)
  {
  }

  // ---- clears --------------------------------------------------------------------------------------------------

  /** A cleared node has nothing to serve; no other node notices. */
  lemma ClearForgets(now: int, actions: seq<Action>, parse: string -> set<string>, a: Action, node: string, other: string)
    requires a == ClearMap(node) || a == DropMap(node) || a == DropAllMaps
    ensures var s := Run(now, actions, parse).s;
            var s' := Step(s, a, parse);
            && Held(s', node).None?
            && (a != DropAllMaps && other != node ==> Held(s', other) == Held(s, other))
  {
    RunSafe(now, actions, parse);
    ClearedMap(Run(now, actions, parse).s, a, node, other, parse);
  }

  lemma ClearedMap(s: State, a: Action, node: string, other: string, parse: string -> set<string>)
    requires HomesOwned(s.homes, s.writers)
    requires a == ClearMap(node) || a == DropMap(node) || a == DropAllMaps
    ensures var s' := Step(s, a, parse);
            Held(s', node).None? && (a != DropAllMaps && other != node ==> Held(s', other) == Held(s, other))
  {
  }

  // ---- back-offs have reasons ------------------------------------------------------------------------------------

  /** A recorded deadline was set by upstream, and a recorded pause by a transient failure with no success since. */
  ghost predicate Reasons(w: World) {
    && (w.s.limitedUntil.Some? ==> w.s.limitedUntil.value in w.deadlines)
    && (w.s.transientUntil.Some? ==> w.s.transientUntil.value in w.pauses)
  }

  lemma RequestReasons(w: World, node: string)
    requires Reasons(w)
    ensures Reasons(w.(s := Request(w.s, node)))
  {
    var s' := OpenHome(w.s, node);
    var cached := CachedAt(s', s'.homes[node]);
    FetchOnceFrame(s'.(transientUntil := None), cached);
  }

  lemma ResumeReasons(w: World, id: nat, parse: string -> set<string>)
    requires Reasons(w) && CanResume(w.s, id)
    ensures Reasons(Next(w, ResumeWriter(id), parse))
  {
    var v := w.s.writers[id];
    FinishStores(w.s, v.cached, v.home, w.s.fetches[v.stage.fetch].outcome);
  }

  lemma ReplyReasons(w: World, id: nat, reply: Reply, parse: string -> set<string>)
    requires Reasons(w) && Enabled(w.s, Reply(id, reply))
    ensures Reasons(Next(w, Reply(id, reply), parse))
  {
    ReceiveFrame(w.s, id, reply, parse);
  }

  lemma NextReasons(w: World, a: Action, parse: string -> set<string>)
    requires Reasons(w)
    ensures Reasons(Next(w, a, parse))
  {
    if Enabled(w.s, a) {
      match a
      case AskFor(node) => RequestReasons(w, node);
      case Reply(id, reply) => ReplyReasons(w, id, reply, parse);
      case ResumeWriter(id) => ResumeReasons(w, id, parse);
      case _ =>
    }
  }

  lemma {:induction false} RunReasons(now: int, actions: seq<Action>, parse: string -> set<string>)
    ensures Reasons(Run(now, actions, parse))
  {
    if |actions| > 0 {
      RunReasons(now, actions[..|actions| - 1], parse);
      NextReasons(Run(now, actions[..|actions| - 1], parse), actions[|actions| - 1], parse);
    }
  }

  ghost predicate Ahead(times: set<int>, now: int) {
    exists d :: d in times && d > now
  }

  /** In every run: requests are refused for a rate limit exactly while a deadline heard from upstream is ahead, and for a
      transient failure exactly while the pause of one is on and nothing has succeeded since. */
  lemma BackOffIff(now: int, actions: seq<Action>, parse: string -> set<string>)
    ensures var w := Run(now, actions, parse);
            && (!Off(w.s.limitedUntil, w.s.now) <==> Ahead(w.deadlines, w.s.now))
            && (!Off(w.s.transientUntil, w.s.now) <==> Ahead(w.pauses, w.s.now))
  {
    RunSafe(now, actions, parse);
    RunReasons(now, actions, parse);
  }

  // ---- times -----------------------------------------------------------------------------------------------------

  /** A reply lost for a transient reason is retried after one second and then after three; the third loss ends the
      fetch. */
  lemma LossIsRetried(s: State, id: nat, message: string, transient: bool, parse: string -> set<string>)
    requires IsCalling(s, id)
    ensures var f, s' := s.fetches[id], Receive(s, id, Lost(message, transient), parse);
            s' == s.(fetches := s.fetches[id :=
              if transient && f.attempt == 0 then Pausing(f.sent, 1, s.now + 1000)
              else if transient && f.attempt == 1 then Pausing(f.sent, 2, s.now + 3000)
              else Settled(Failed(Network(message, transient)))])
  {
  }
}
