/**
 The signing keys of Cloudflare Access teams: server/src/auth/edge-jwks.ts.

 A lookup runs without interruption up to its fetch, with the clock it was given; the fetch's outcome arrives as a later
 step, in any order. `flights` are the fetches on their way; `starts` records every fetch that began.
 */
module EdgeKeys {
  import opened Wrappers

  const CACHE_TTL_MS := 21_600_000
  const FORCED_REFRESH_MIN_INTERVAL_MS := 60_000

  // ---------------------------------------------------------------- the key list

  /** A member of `keys`; `key` is None where createPublicKey throws. */
  datatype Entry = Entry(kid: Option<string>, kty: Option<string>, use: Option<string>, key: Option<nat>)

  datatype Response = Unreachable | NoKeyArray | KeyArray(entries: seq<Entry>)

  /** An RSA key that is not for encryption and that can be built. */
  ghost predicate Usable(entry: Entry) {
    entry.kid.Some? && entry.kty == Some("RSA") && entry.use != Some("enc") && entry.key.Some?
  }

  ghost predicate Names(entry: Entry, kid: string) {
    Usable(entry) && entry.kid.value == kid
  }

  /** What the list says about a kid: its last usable entry. */
  ghost function LastUsable(entries: seq<Entry>, kid: string): Option<nat>
    decreases |entries|
  {
    if entries == [] then None
    else if Names(entries[|entries| - 1], kid) then entries[|entries| - 1].key
    else LastUsable(entries[..|entries| - 1], kid)
  }

  /** A usable entry that no later one repeats is the answer for its kid; a kid without any has none. */
  lemma {:induction false} LastUsableWins(entries: seq<Entry>, kid: string, i: nat)
    requires i <= |entries| && (i < |entries| ==> Names(entries[i], kid))
    requires forall j :: i < j < |entries| ==> !Names(entries[j], kid)
    requires i == |entries| ==> forall j :: 0 <= j < |entries| ==> !Names(entries[j], kid)
    ensures LastUsable(entries, kid) == if i < |entries| then entries[i].key else None
    decreases |entries|
  {
    if entries != [] && i != |entries| - 1 {
      assert !Names(entries[|entries| - 1], kid);
      LastUsableWins(entries[..|entries| - 1], kid, if i < |entries| then i else |entries| - 1);
    }
  }

  ghost predicate Reads(keys: map<string, nat>, entries: seq<Entry>) {
    forall kid: string :: LastUsable(entries, kid) == if kid in keys then Some(keys[kid]) else None
  }

  ghost predicate HasUsableKey(response: Response) {
    response.KeyArray? && exists i :: 0 <= i < |response.entries| && Usable(response.entries[i])
  }

  ghost predicate Outcome(response: Response, keys: Option<map<string, nat>>) {
    && (keys.Some? <==> HasUsableKey(response))
    && (keys.Some? ==> Reads(keys.value, response.entries))
  }

  /** fetchJwks; None is its exception. */
  method FetchJwks(response: Response) returns (keys: Option<map<string, nat>>)
    ensures Outcome(response, keys)
  {
    if !response.KeyArray? { return None; }
    var entries := response.entries;
    var found: map<string, nat> := map[];
    for k := 0 to |entries|
      invariant Reads(found, entries[..k])
      invariant found == map[] <==> forall i :: 0 <= i < k ==> !Usable(entries[i])
    {
      assert entries[..k + 1][..k] == entries[..k];
      var jwk := entries[k];
      if jwk.kid.None? || jwk.kty != Some("RSA") || jwk.use == Some("enc") { continue; }
      if jwk.key.Some? {
        found := found[jwk.kid.value := jwk.key.value];
        assert jwk.kid.value in found;
      }
    }
    assert entries[..|entries|] == entries;
    if found == map[] { return None; }
    keys := Some(found);
  }

  // ---------------------------------------------------------------- the steps

  datatype Cached = Cached(keys: map<string, nat>, fetchedAt: int)

  /** A fetch on its way, with what the lookup read before it. */
  datatype Flight = Flight(team: string, kid: string, now: int, cached: Option<Cached>, allowStale: bool)

  datatype Start = Start(team: string, at: int)

  datatype State = State(cache: map<string, Cached>, lastFetchAttemptAt: map<string, int>,
                         flights: map<nat, Flight>, starts: seq<Start>)

  const INITIAL := State(map[], map[], map[], [])

  datatype Step =
    | Lookup(team: string, kid: string, now: int, allowStale: bool)
    | Arrive(flight: nat, keys: Option<map<string, nat>>)

  function CachedFor(st: State, team: string): Option<Cached> {
    if team in st.cache then Some(st.cache[team]) else None
  }

  predicate Recent(cached: Option<Cached>, now: int) {
    cached.Some? && now - cached.value.fetchedAt < CACHE_TTL_MS
  }

  function KeyIn(cached: Option<Cached>, kid: string): Option<nat> {
    if cached.Some? && kid in cached.value.keys then Some(cached.value.keys[kid]) else None
  }

  /** What the cache may still answer where nothing new arrived. */
  function FromCache(cached: Option<Cached>, kid: string, now: int, allowStale: bool): Option<nat> {
    if allowStale || Recent(cached, now) then KeyIn(cached, kid) else None
  }

  predicate ShouldFetch(st: State, team: string, now: int) {
    || team !in st.cache
    || now - (if team in st.lastFetchAttemptAt then st.lastFetchAttemptAt[team] else 0)
       >= FORCED_REFRESH_MIN_INTERVAL_MS
  }

  predicate Starts(st: State, team: string, kid: string, now: int) {
    && !(Recent(CachedFor(st, team), now) && KeyIn(CachedFor(st, team), kid).Some?)
    && ShouldFetch(st, team, now)
  }

  function Next(st: State, step: Step): State {
    match step
    case Lookup(team, kid, now, allowStale) =>
      if !Starts(st, team, kid, now) then st else
      st.(lastFetchAttemptAt := st.lastFetchAttemptAt[team := now],
          flights := st.flights[|st.starts| := Flight(team, kid, now, CachedFor(st, team), allowStale)],
          starts := st.starts + [Start(team, now)])
    case Arrive(flight, keys) =>
      if flight !in st.flights then st else
      var f := st.flights[flight];
      var landed := st.(flights := st.flights - {flight});
      if keys.None? then landed else landed.(cache := st.cache[f.team := Cached(keys.value, f.now)])
  }

  function Run(st: State, trace: seq<Step>): State
    decreases |trace|
  {
    if trace == [] then st else Next(Run(st, trace[..|trace| - 1]), trace[|trace| - 1])
  }

  // ---------------------------------------------------------------- what every run keeps

  /** A held set and a flight come from a recorded attempt; a flight belongs to its start. */
  ghost predicate Invariant(st: State) {
    && (forall team :: team in st.cache ==> team in st.lastFetchAttemptAt)
    && (forall f :: f in st.flights ==>
          f < |st.starts| && st.starts[f] == Start(st.flights[f].team, st.flights[f].now)
          && st.flights[f].team in st.lastFetchAttemptAt)
  }

  lemma NextKeepsInvariant(st: State, step: Step)
    requires Invariant(st)
    ensures Invariant(Next(st, step)) && st.starts <= Next(st, step).starts
    ensures forall team :: team in st.cache ==> team in Next(st, step).cache
  {
  }

  lemma {:induction false} RunKeepsInvariant(st: State, trace: seq<Step>)
    requires Invariant(st)
    ensures Invariant(Run(st, trace)) && st.starts <= Run(st, trace).starts
    ensures forall team :: team in st.cache ==> team in Run(st, trace).cache
    decreases |trace|
  {
    if trace != [] {
      RunKeepsInvariant(st, trace[..|trace| - 1]);
      NextKeepsInvariant(Run(st, trace[..|trace| - 1]), trace[|trace| - 1]);
    }
  }

  /** All the team's starts from number `first` on lie a minute apart, and a minute after `attempt`. */
  ghost predicate SpacedFrom(st: State, first: nat, team: string, attempt: int) {
    && (forall i :: first <= i < |st.starts| && st.starts[i].team == team ==>
          st.starts[i].at - attempt >= 60_000)
    && (forall i, j :: first <= i < j < |st.starts| && st.starts[i].team == team == st.starts[j].team ==>
          st.starts[j].at - st.starts[i].at >= 60_000)
  }

  /**
   Once a set is held for the team, every later run starts its fetches at least a minute apart, and a minute after
   the last attempt before: however lookups interleave, whatever fails, whichever clocks the callers bring.
   */
  lemma {:induction false} HeldTeamsAreThrottled(st: State, team: string, trace: seq<Step>)
    requires Invariant(st) && team in st.cache
    ensures
      var last := Run(st, trace);
      && SpacedFrom(last, |st.starts|, team, st.lastFetchAttemptAt[team])
      && team in last.cache && team in last.lastFetchAttemptAt
      && st.lastFetchAttemptAt[team] <= last.lastFetchAttemptAt[team]
      && (forall i :: |st.starts| <= i < |last.starts| && last.starts[i].team == team ==>
            last.starts[i].at <= last.lastFetchAttemptAt[team])
    decreases |trace|
  {
    if trace != [] {
      var before, step := Run(st, trace[..|trace| - 1]), trace[|trace| - 1];
      HeldTeamsAreThrottled(st, team, trace[..|trace| - 1]);
      RunKeepsInvariant(st, trace[..|trace| - 1]);
      NextKeepsInvariant(before, step);
    }
  }

  /** A set fetched within six hours has the key. */
  ghost predicate HasRecent(cache: map<string, Cached>, team: string, kid: string, now: int) {
    team in cache && now - cache[team].fetchedAt < 21_600_000 && kid in cache[team].keys
  }

  /** What a set fetched at any time still answers: its key, if it is recent or may be stale. */
  ghost predicate Answers(cached: Option<Cached>, kid: string, now: int, allowStale: bool, key: Option<nat>) {
    if cached.Some? && kid in cached.value.keys && (allowStale || now - cached.value.fetchedAt < 21_600_000)
    then key == Some(cached.value.keys[kid]) else key == None
  }

  /**
   A lookup starts a fetch exactly when no recent set has its key and either no set is held or a minute has passed.
   */
  lemma StartsExactly(st: State, team: string, kid: string, now: int, allowStale: bool)
    requires Invariant(st)
    ensures
      var next := Next(st, Lookup(team, kid, now, allowStale));
      if HasRecent(st.cache, team, kid, now) || (team in st.cache && now < st.lastFetchAttemptAt[team] + 60_000) then
        next == st
      else
        && next.starts == st.starts + [Start(team, now)] && next.cache == st.cache
        && next.lastFetchAttemptAt == st.lastFetchAttemptAt[team := now]
        && next.flights == st.flights[|st.starts| := Flight(team, kid, now, CachedFor(st, team), allowStale)]
  {
  }

  /**
   Before a set is held nothing throttles: any number of fetches may start at one instant and be on their way together.
   */
  lemma {:induction false} FirstFetchesAreUnthrottled(team: string, kid: string, now: int, n: nat)
    ensures
      var trace := seq(n, _ => Lookup(team, kid, now, true));
      var last := Run(INITIAL, trace);
      && last.cache == map[] && |last.starts| == n && (forall i :: 0 <= i < n ==> last.starts[i] == Start(team, now))
      && forall i :: 0 <= i < n ==> i in last.flights
  {
    var trace := seq(n, _ => Lookup(team, kid, now, true));
    if n > 0 {
      FirstFetchesAreUnthrottled(team, kid, now, n - 1);
      assert trace[..n - 1] == seq(n - 1, _ => Lookup(team, kid, now, true));
    }
  }

  // ---------------------------------------------------------------- the service

  datatype Reply = Answered(key: Option<nat>) | Fetching(flight: nat)

  /** The module's two maps. */
  class EdgeJwks {
    var cache: map<string, Cached>
    var lastFetchAttemptAt: map<string, int>
    var flights: map<nat, Flight>
    var starts: seq<Start>

    constructor ()
      ensures Now() == INITIAL && Invariant(Now())
    {
      cache, lastFetchAttemptAt, flights, starts := map[], map[], map[], [];
    }

    function Now(): State
      reads this
    {
      State(cache, lastFetchAttemptAt, flights, starts)
    }

    method GetEdgeSigningKey(team: string, kid: string, now: int, allowStale: bool) returns (reply: Reply)
      requires Invariant(Now())
      modifies this
      ensures Invariant(Now()) && Now() == Next(old(Now()), Lookup(team, kid, now, allowStale))
      ensures reply.Fetching? <==>
        && !HasRecent(old(cache), team, kid, now)
        && (team in old(cache) ==> now >= old(lastFetchAttemptAt)[team] + 60_000)
      ensures reply.Fetching? ==>
        && starts == old(starts) + [Start(team, now)] && reply.flight in flights
        && flights[reply.flight] == Flight(team, kid, now, CachedFor(old(Now()), team), allowStale)
      ensures reply.Answered? ==>
        Now() == old(Now()) && team in cache && Answers(Some(cache[team]), kid, now, allowStale, reply.key)
    {
      NextKeepsInvariant(Now(), Lookup(team, kid, now, allowStale));
      var cached := CachedFor(Now(), team);
      var recent := cached.Some? && now - cached.value.fetchedAt < CACHE_TTL_MS;
      if recent && kid in cached.value.keys { return Answered(Some(cached.value.keys[kid])); }
      if !ShouldFetch(Now(), team, now) {
        return Answered(if allowStale || recent then KeyIn(cached, kid) else None);
      }
      lastFetchAttemptAt := lastFetchAttemptAt[team := now];
      reply := Fetching(|starts|);
      flights := flights[|starts| := Flight(team, kid, now, cached, allowStale)];
      starts := starts + [Start(team, now)];
    }

    /** The rest of a lookup, once its fetch has ended. */
    method Arrive(flight: nat, response: Response) returns (key: Option<nat>)
      requires Invariant(Now()) && flight in flights
      modifies this`cache, this`flights
      ensures Invariant(Now())
      ensures exists keys :: Outcome(response, keys) && Now() == Next(old(Now()), Step.Arrive(flight, keys))
      ensures flights == old(flights) - {flight}
      ensures var f := old(flights)[flight];
              if HasUsableKey(response) then
                && key == LastUsable(response.entries, f.kid)
                && f.team in cache && cache == old(cache)[f.team := cache[f.team]]
                && cache[f.team].fetchedAt == f.now && Reads(cache[f.team].keys, response.entries)
              else
                cache == old(cache) && Answers(f.cached, f.kid, f.now, f.allowStale, key)
    {
      var f := flights[flight];
      var keys := FetchJwks(response);
      NextKeepsInvariant(Now(), Step.Arrive(flight, keys));
      flights := flights - {flight};
      if keys.Some? {
        cache := cache[f.team := Cached(keys.value, f.now)];
        key := if f.kid in keys.value then Some(keys.value[f.kid]) else None;
      } else {
        key := FromCache(f.cached, f.kid, f.now, f.allowStale);
      }
      assert Now() == Next(old(Now()), Step.Arrive(flight, keys));
    }
  }
}
