/** The list cache as the service keeps it: maps it updates in place, one method per stretch between two awaits, each
    proved to take the step of `ListCacheModel`. The clock is passed in. */
module ListCacheService {
  import opened Options
  import opened ListCacheModel

  class ListCache {
    var limitedUntil: Option<int>
    var transientUntil: Option<int>
    var inFlight: Option<nat>
    var fetches: map<nat, Fetch>
    var inFlightWrites: map<string, nat>
    var writers: map<nat, Writer>
    var homes: map<string, Home>
    var entries: map<Home, Entry>
    var next: nat

    ghost function View(now: int): State
      reads this
    {
      State(now, limitedUntil, transientUntil, inFlight, fetches, inFlightWrites, writers, homes, entries, next)
    }

    constructor (now: int)
      ensures View(now) == Start(now)
    {
      limitedUntil, transientUntil, inFlight, next := None, None, None, 0;
      fetches, inFlightWrites, writers, homes, entries := map[], map[], map[], map[], map[];
    }

    method EnforceRateLimitBackoff(now: int) returns (refused: bool)
      modifies this`limitedUntil
      ensures refused == ActiveUntil(old(limitedUntil), now)
      ensures limitedUntil == Expire(old(limitedUntil), now)
    {
      if limitedUntil.None? {
        return false;
      }
      if limitedUntil.value <= now {
        limitedUntil := None;
        return false;
      }
      return true;
    }

    method EnforceTransientFailureBackoff(now: int) returns (refused: bool)
      modifies this`transientUntil
      ensures refused == ActiveUntil(old(transientUntil), now)
      ensures transientUntil == Expire(old(transientUntil), now)
    {
      if transientUntil.None? {
        return false;
      }
      if transientUntil.value <= now {
        transientUntil := None;
        return false;
      }
      return true;
    }

    /** Back-off errors and failures that are not transient leave no trace. */
    method RecordTransientFailure(f: Failure, now: int)
      modifies this`transientUntil
      ensures transientUntil == if f.Network? && f.transient then Some(now + TRANSIENT_BACKOFF) else old(transientUntil)
    {
      if !f.Network? {
        return;
      }
      if !f.transient {
        return;
      }
      transientUntil := Some(now + TRANSIENT_BACKOFF);
    }

    method IsCachedEntryFresh(e: Entry, now: int) returns (yes: bool)
      ensures yes == IsFresh(View(now), e)
    {
      if e.error.Some? && e.error.value != "" {
        return if transientUntil.Some? then transientUntil.value > now else false;
      }
      return now - e.fetchedAt < REFRESH_INTERVAL;
    }

    method FetchDomainListOnce(cached: Option<Entry>, now: int) returns (id: nat)
      modifies this
      ensures (View(now), id) == FetchOnce(old(View(now)), cached)
    {
      var refused := EnforceRateLimitBackoff(now);
      if refused {
        id := next;
        fetches, next := fetches[id := Resolved(Failed(LimitActive))], next + 1;
        return;
      }
      if inFlight.Some? {
        return inFlight.value;
      }
      id := next;
      fetches, next := fetches[id := Calling(cached, 0)], next + 1;
      inFlight := Some(id);
    }

    /** The catch branch. */
    method StoreFailure(cached: Option<Entry>, home: Home, f: Failure, now: int) returns (answer: Entry)
      modifies this`transientUntil, this`entries
      ensures (View(now), answer) == Recover(old(View(now)), cached, home, f)
    {
      RecordTransientFailure(f, now);
      if cached.Some? {
        return cached.value;
      }
      answer := Entry({}, now, "", "", Some(Message(f)));
      entries := entries[home := answer];
    }

    method AddInFlightWrite(node: string, cached: Option<Entry>, home: Home, stage: Stage)
      modifies this`writers, this`inFlightWrites, this`next
      ensures forall now :: View(now) == AddWriter(old(View(now)), Writer(node, cached, home, stage))
    {
      writers := writers[next := Writer(node, cached, home, stage)];
      inFlightWrites := inFlightWrites[node := next];
      next := next + 1;
    }

    method GetOrFetchList(node: string, now: int)
      modifies this
      ensures View(now) == Request(old(View(now)), node)
    {
      if node !in homes {
        homes := homes[node := Home(node, next)];
        next := next + 1;
      }
      var home := homes[node];
      var cached := if home in entries then Some(entries[home]) else None;
      if cached.Some? {
        var yes := IsCachedEntryFresh(cached.value, now);
        if yes {
          return;
        }
      }
      if node in inFlightWrites {
        return;
      }
      var refused := EnforceTransientFailureBackoff(now);
      if refused {
        var answer := StoreFailure(cached, home, TransientActive, now);
        AddInFlightWrite(node, cached, home, Done(answer));
      } else {
        var id := FetchDomainListOnce(cached, now);
        AddInFlightWrite(node, cached, home, Awaiting(id));
      }
    }

    method ExecuteDomainFetch(id: nat, reply: Reply, now: int, parse: string -> set<string>)
      requires id in fetches && fetches[id].Calling?
      modifies this`limitedUntil, this`transientUntil, this`fetches
      ensures View(now) == Receive(old(View(now)), id, reply, parse)
    {
      match reply
      case Lost(message, transient) =>
        var attempt := fetches[id].attempt;
        if !transient || attempt >= |RETRY_DELAYS| {
          fetches := fetches[id := Settled(Failed(Network(message, transient)))];
          return;
        }
        fetches := fetches[id := Pausing(fetches[id].sent, attempt + 1, now + RETRY_DELAYS[attempt])];
      case Limit(retryAfter) =>
        limitedUntil := match retryAfter case Some(at) => Some(at) case None => Some(now + RATE_LIMIT_BACKOFF);
        fetches := fetches[id := Settled(Failed(UpstreamLimit))];
      case Unchanged =>
        limitedUntil, transientUntil := None, None;
        fetches := fetches[id := Settled(NotModified)];
      case Page(body, etag, lastModified) =>
        var domains := parse(body);
        limitedUntil, transientUntil := None, None;
        fetches := fetches[id := Settled(Parsed(domains, etag, lastModified))];
    }

    /** `fetchAndStoreList` once its promise has settled. */
    method FetchAndStoreList(id: nat, now: int)
      requires CanResume(View(now), id)
      modifies this`transientUntil, this`entries, this`writers
      ensures View(now) == Resume(old(View(now)), id)
    {
      var w := writers[id];
      var answer;
      match fetches[w.stage.fetch].outcome {
        case Failed(f) =>
          answer := StoreFailure(w.cached, w.home, f, now);
        case NotModified =>
          if w.cached.Some? {
            answer := w.cached.value.(fetchedAt := now);
            entries := entries[w.home := answer];
          } else {
            answer := Entry({}, 0, "", "", None);
          }
        case Parsed(domains, etag, lastModified) =>
          answer := Entry(domains, now, etag, lastModified, None);
          entries := entries[w.home := answer];
      }
      writers := writers[id := w.(stage := Done(answer))];
    }
  }
}
