/** One list URL in the domain list cache. An asynchronous method runs without interruption from one await to the next,
    so the service is a transition system whose steps are those stretches, the replies of the upstream server and the
    passing of time (in milliseconds). */
module ListCacheModel {
  import opened Options

  const REFRESH_INTERVAL := 24 * 60 * 60 * 1000
  const RATE_LIMIT_BACKOFF := 60 * 60 * 1000
  const TRANSIENT_BACKOFF := 5 * 60 * 1000
  const RETRY_DELAYS := [1000, 3000]

  // ---- data ----------------------------------------------------------------------------------------

  /** A cached list. A missing validator is "", which is not sent either. */
  datatype Entry = Entry(domains: set<string>, fetchedAt: int, etag: string, lastModified: string, error: Option<string>)

  /** The service's own test, `if (cached.errorMessage)`: an empty message does not count. */
  predicate IsError(e: Entry) {
    e.error.Some? && |e.error.value| > 0
  }

  /** What comes back from upstream. `retryAfter` is the parsed header, `transient` whether a failure without a usable
      response has one of the retryable codes. */
  datatype Reply =
    | Page(body: string, etag: string, lastModified: string)
    | Unchanged
    | Limit(retryAfter: Option<int>)
    | Lost(message: string, transient: bool)

  datatype Failure = UpstreamLimit | LimitActive | TransientActive | Network(message: string, transient: bool)

  function Message(f: Failure): string {
    match f
    case UpstreamLimit => "Upstream rate limit"
    case LimitActive => "Rate-limit back-off active"
    case TransientActive => "Transient fetch back-off active"
    case Network(message, _) => message
  }

  datatype Outcome = Parsed(domains: set<string>, etag: string, lastModified: string) | NotModified | Failed(failure: Failure)

  /** An activation of `executeDomainFetch`: inside `httpService.get`, in the delay before a retry, settled but with
      `finally` still to run, or resolved. `sent` is the entry whose validators were sent. */
  datatype Fetch =
    | Calling(sent: Option<Entry>, attempt: nat)
    | Pausing(sent: Option<Entry>, attempt: nat, until: int)
    | Settled(outcome: Outcome)
    | Resolved(outcome: Outcome)

  /** The identity of a node's cache map; clearing all caches replaces the map objects. */
  datatype Home = Home(node: string, number: nat)

  datatype Stage = Awaiting(fetch: nat) | Done(answer: Entry)

  /** An activation of `fetchAndStoreList` with the map and the entry it captured. */
  datatype Writer = Writer(node: string, cached: Option<Entry>, home: Home, stage: Stage)

  /** `next` numbers new objects. */
  datatype State = State(now: int, limitedUntil: Option<int>, transientUntil: Option<int>,
                         inFlight: Option<nat>, fetches: map<nat, Fetch>,
                         inFlightWrites: map<string, nat>, writers: map<nat, Writer>,
                         homes: map<string, Home>, entries: map<Home, Entry>, next: nat)

  function Start(now: int): State {
    State(now, None, None, None, map[], map[], map[], map[], map[], 0)
  }

  // ---- back-off and freshness ------------------------------------------------------------------------

  predicate ActiveUntil(until: Option<int>, now: int) {
    until.Some? && until.value > now
  }

  /** Both `enforce…Backoff` methods delete a deadline that has passed. */
  function Expire(until: Option<int>, now: int): Option<int> {
    if ActiveUntil(until, now) then until else None
  }

  predicate IsFresh(s: State, e: Entry) {
    if IsError(e) then ActiveUntil(s.transientUntil, s.now) else s.now - e.fetchedAt < REFRESH_INTERVAL
  }

  function CachedAt(s: State, home: Home): Option<Entry> {
    if home in s.entries then Some(s.entries[home]) else None
  }

  // ---- asking for a list -----------------------------------------------------------------------------

  function OpenHome(s: State, node: string): State {
    if node in s.homes then s else s.(homes := s.homes[node := Home(node, s.next)], next := s.next + 1)
  }

  /** `fetchDomainListOnce`: the id of the promise the caller awaits. */
  function FetchOnce(s: State, cached: Option<Entry>): (State, nat) {
    if ActiveUntil(s.limitedUntil, s.now) then
      (s.(fetches := s.fetches[s.next := Resolved(Failed(LimitActive))], next := s.next + 1), s.next)
    else if s.inFlight.Some? then (s.(limitedUntil := None), s.inFlight.value)
    else
      (s.(limitedUntil := None, inFlight := Some(s.next), fetches := s.fetches[s.next := Calling(cached, 0)],
          next := s.next + 1), s.next)
  }

  /** The catch branch of `fetchAndStoreList`. */
  function Recover(s: State, cached: Option<Entry>, home: Home, f: Failure): (State, Entry) {
    var s' := if f.Network? && f.transient then s.(transientUntil := Some(s.now + TRANSIENT_BACKOFF)) else s;
    match cached
    case Some(e) => (s', e)
    case None =>
      var e := Entry({}, s.now, "", "", Some(Message(f)));
      (s'.(entries := s'.entries[home := e]), e)
  }

  function AddWriter(s: State, w: Writer): State {
    s.(writers := s.writers[s.next := w], inFlightWrites := s.inFlightWrites[w.node := s.next], next := s.next + 1)
  }

  /** `fetchAndStoreList` up to its first await. */
  function BeginWrite(s: State, node: string, home: Home, cached: Option<Entry>): State {
    if ActiveUntil(s.transientUntil, s.now) then
      var (s', e) := Recover(s, cached, home, TransientActive);
      AddWriter(s', Writer(node, cached, home, Done(e)))
    else
      var (s', id) := FetchOnce(s.(transientUntil := None), cached);
      AddWriter(s', Writer(node, cached, home, Awaiting(id)))
  }

  /** `getOrFetchList`. */
  function Request(s: State, node: string): State {
    var s' := OpenHome(s, node);
    var home := s'.homes[node];
    var cached := CachedAt(s', home);
    if cached.Some? && IsFresh(s', cached.value) then s'
    else if node in s'.inFlightWrites then s'
    else BeginWrite(s', node, home, cached)
  }

  // ---- a fetch ---------------------------------------------------------------------------------------

  /** `executeDomainFetch` from a reply on, including the retry loop. */
  function Receive(s: State, id: nat, reply: Reply, parse: string -> set<string>): State
    requires id in s.fetches && s.fetches[id].Calling?
  {
    var f := s.fetches[id];
    match reply
    case Lost(message, transient) =>
      if transient && f.attempt < |RETRY_DELAYS| then
        s.(fetches := s.fetches[id := Pausing(f.sent, f.attempt + 1, s.now + RETRY_DELAYS[f.attempt])])
      else
        s.(fetches := s.fetches[id := Settled(Failed(Network(message, transient)))])
    case Limit(retryAfter) =>
      s.(fetches := s.fetches[id := Settled(Failed(UpstreamLimit))],
         limitedUntil := Some(if retryAfter.Some? then retryAfter.value else s.now + RATE_LIMIT_BACKOFF))
    case Unchanged =>
      s.(fetches := s.fetches[id := Settled(NotModified)], limitedUntil := None, transientUntil := None)
    case Page(body, etag, lastModified) =>
      s.(fetches := s.fetches[id := Settled(Parsed(parse(body), etag, lastModified))],
         limitedUntil := None, transientUntil := None)
  }

  function Retry(s: State, id: nat): State
    requires id in s.fetches && s.fetches[id].Pausing?
  {
    s.(fetches := s.fetches[id := Calling(s.fetches[id].sent, s.fetches[id].attempt)])
  }

  /** `finally` of the shared fetch. */
  function Land(s: State, id: nat): State
    requires id in s.fetches && s.fetches[id].Settled?
  {
    s.(fetches := s.fetches[id := Resolved(s.fetches[id].outcome)], inFlight := None)
  }

  // ---- storing ---------------------------------------------------------------------------------------

  /** `fetchAndStoreList` after its await. */
  function Finish(s: State, cached: Option<Entry>, home: Home, outcome: Outcome): (State, Entry) {
    match outcome
    case Failed(f) => Recover(s, cached, home, f)
    case NotModified =>
      if cached.Some? then
        var e := cached.value.(fetchedAt := s.now);
        (s.(entries := s.entries[home := e]), e)
      else (s, Entry({}, 0, "", "", None))
    case Parsed(domains, etag, lastModified) =>
      var e := Entry(domains, s.now, etag, lastModified, None);
      (s.(entries := s.entries[home := e]), e)
  }

  predicate CanResume(s: State, id: nat) {
    && id in s.writers && s.writers[id].stage.Awaiting?
    && s.writers[id].stage.fetch in s.fetches && s.fetches[s.writers[id].stage.fetch].Resolved?
  }

  function Resume(s: State, id: nat): State
    requires CanResume(s, id)
  {
    var w := s.writers[id];
    var (s', e) := Finish(s, w.cached, w.home, s.fetches[w.stage.fetch].outcome);
    s'.(writers := s'.writers[id := w.(stage := Done(e))])
  }

  /** `finally` of the cache write. */
  function Leave(s: State, id: nat): State
    requires id in s.writers && s.writers[id].stage.Done?
  {
    s.(writers := s.writers - {id}, inFlightWrites := s.inFlightWrites - {s.writers[id].node})
  }

  // ---- steps and runs ----------------------------------------------------------------------------------

  datatype Action =
    | Tick(ms: nat)
    | AskFor(node: string)
    | Reply(id: nat, reply: Reply)
    | RetryTimer(id: nat)
    | LandFetch(id: nat)
    | ResumeWriter(id: nat)
    | LeaveWriter(id: nat)
    | ClearMap(node: string)
    | DropMap(node: string)
    | DropAllMaps

  predicate Enabled(s: State, a: Action) {
    match a
    case Tick(_) => true
    case AskFor(_) => true
    case Reply(id, _) => id in s.fetches && s.fetches[id].Calling?
    case RetryTimer(id) => id in s.fetches && s.fetches[id].Pausing? && s.fetches[id].until <= s.now
    case LandFetch(id) => id in s.fetches && s.fetches[id].Settled?
    case ResumeWriter(id) => CanResume(s, id)
    case LeaveWriter(id) => id in s.writers && s.writers[id].stage.Done?
    case ClearMap(_) => true
    case DropMap(_) => true
    case DropAllMaps => true
  }

  function Step(s: State, a: Action, parse: string -> set<string>): State
    requires Enabled(s, a)
  {
    match a
    case Tick(ms) => s.(now := s.now + ms)
    case AskFor(node) => Request(s, node)
    case Reply(id, reply) => Receive(s, id, reply, parse)
    case RetryTimer(id) => Retry(s, id)
    case LandFetch(id) => Land(s, id)
    case ResumeWriter(id) => Resume(s, id)
    case LeaveWriter(id) => Leave(s, id)
    case ClearMap(node) => if node in s.homes then s.(entries := s.entries - {s.homes[node]}) else s
    case DropMap(node) => s.(homes := s.homes - {node})
    case DropAllMaps => s.(homes := map[])
  }

  /** The state together with its history: the deadlines upstream has set (an hour ahead where it names none), the ends of
      the five-minute pauses after transient failures since the last successful fetch, the pages served, and for every
      fetch answered by a 304 the entry whose validators had been sent. */
  datatype World = World(s: State, deadlines: set<int>, pauses: set<int>, pages: set<Reply>,
                         confirmed: map<nat, Option<Entry>>)

  /** A resumed writer sees that the retries of a transient failure were used up. */
  predicate FailsTransiently(s: State, id: nat) {
    CanResume(s, id) &&
    match s.fetches[s.writers[id].stage.fetch].outcome
    case Failed(Network(_, transient)) => transient
    case _ => false
  }

  /** A step that is not enabled does nothing. */
  function Next(w: World, a: Action, parse: string -> set<string>): World {
    if !Enabled(w.s, a) then w
    else
      var s' := Step(w.s, a, parse);
      match a
      case Reply(_, Limit(Some(until))) => w.(s := s', deadlines := w.deadlines + {until})
      case Reply(_, Limit(None)) => w.(s := s', deadlines := w.deadlines + {w.s.now + 3600000})
      case Reply(_, Page(_, _, _)) => w.(s := s', pauses := {}, pages := w.pages + {a.reply})
      case Reply(id, Unchanged) => w.(s := s', pauses := {}, confirmed := w.confirmed[id := w.s.fetches[id].sent])
      case ResumeWriter(id) =>
        w.(s := s', pauses := w.pauses + if FailsTransiently(w.s, id) then {w.s.now + 300000} else {})
      case _ => w.(s := s')
  }

  function Run(now: int, actions: seq<Action>, parse: string -> set<string>): World {
    if |actions| == 0 then World(Start(now), {}, {}, {}, map[])
    else Next(Run(now, actions[..|actions| - 1], parse), actions[|actions| - 1], parse)
  }
}
