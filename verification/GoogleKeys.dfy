/**
 Google's signing keys: server/src/auth/google-signing-keys.ts.

 `get` runs without interruption up to its `await`, and so do the two continuations of a fetch: the one that stores
 the parsed set and the `finally` that clears `pending`. Each of these is one step; steps interleave freely, and the
 clock a step reads may be anything. `log` and `answers` record what happened.
 */
module GoogleKeys {
  import opened Wrappers
  import opened Arithmetic
  import opened Text

  const RETRY_INTERVAL_MS := 60_000
  const MAX_KEYS := 32
  const MAX_TTL_S := 3600

  // ---------------------------------------------------------------- the key list

  /**
   A member of the JSON array; a field that is missing or not a string is None, as are the bits of a key that cannot be
   built.
   */
  datatype Entry =
    | NotAnObject
    | Jwk(kty: Option<string>, alg: Option<string>, use: Option<string>, kid: Option<string>,
          n: Option<string>, e: Option<string>, bits: Option<nat>)

  datatype Body = NotAKeyList | KeyList(entries: seq<Entry>)

  datatype Key = Key(n: string, e: string)

  predicate UrlSafe(s: string, least: nat, most: nat) {
    && least <= |s| <= most
    && forall i :: 0 <= i < |s| ==> 'A' <= s[i] <= 'Z' || 'a' <= s[i] <= 'z' || '0' <= s[i] <= '9' || s[i] in "_-"
  }

  predicate WellFormed(entry: Entry) {
    && entry.Jwk? && entry.kty == Some("RSA") && entry.alg == Some("RS256") && entry.use == Some("sig")
    && entry.kid.Some? && 0 < |entry.kid.value| <= 200
    && entry.n.Some? && UrlSafe(entry.n.value, 100, 2048)
    && entry.e.Some? && UrlSafe(entry.e.value, 1, 16)
  }

  ghost predicate Base64Url(text: string) {
    forall c :: c in text ==> c in BASE64URL
  }

  /** An RSA key for RS256 signatures of 2048 bits or more, with an id and with its numbers in base64url. */
  ghost predicate Strong(entry: Entry) {
    && entry.Jwk? && entry.kty == Some("RSA") && entry.alg == Some("RS256") && entry.use == Some("sig")
    && entry.kid.Some? && 1 <= |entry.kid.value| <= 200
    && entry.n.Some? && 100 <= |entry.n.value| <= 2048 && Base64Url(entry.n.value)
    && entry.e.Some? && 1 <= |entry.e.value| <= 16 && Base64Url(entry.e.value)
    && entry.bits.Some? && entry.bits.value >= 2048
  }

  lemma UrlSafeExactly(s: string, least: nat, most: nat)
    ensures UrlSafe(s, least, most) <==> least <= |s| <= most && Base64Url(s)
  {
    forall i | 0 <= i < |s|
      ensures s[i] in s
      ensures s[i] in BASE64URL
              <==> 'A' <= s[i] <= 'Z' || 'a' <= s[i] <= 'z' || '0' <= s[i] <= '9' || s[i] in "_-"
    {
      Base64UrlRange(s[i]);
    }
  }

  /** The checks of fetchKeys on one entry. */
  lemma StrongExactly(entry: Entry)
    ensures Strong(entry) <==> WellFormed(entry) && entry.bits.Some? && entry.bits.value >= 2048
  {
    if entry.Jwk? && entry.n.Some? { UrlSafeExactly(entry.n.value, 100, 2048); }
    if entry.Jwk? && entry.e.Some? { UrlSafeExactly(entry.e.value, 1, 16); }
  }

  ghost predicate AllStrongAndDistinct(entries: seq<Entry>) {
    && (forall i :: 0 <= i < |entries| ==> Strong(entries[i]))
    && (forall i, j :: 0 <= i < j < |entries| ==> entries[i].kid != entries[j].kid)
  }

  /** The keys by kid, the later entry of a kid last. */
  ghost function ByKid(entries: seq<Entry>): map<string, Key>
    requires forall i :: 0 <= i < |entries| ==> Strong(entries[i])
    decreases |entries|
  {
    if entries == [] then map[] else
    var last := entries[|entries| - 1];
    assert Strong(last);
    ByKid(entries[..|entries| - 1])[last.kid.value := Key(last.n.value, last.e.value)]
  }

  lemma {:induction false} ByKidDomain(entries: seq<Entry>, kid: string)
    requires forall i :: 0 <= i < |entries| ==> Strong(entries[i])
    ensures kid in ByKid(entries) <==> exists i :: 0 <= i < |entries| && entries[i].kid == Some(kid)
    decreases |entries|
  {
    if entries != [] {
      var rest, last := entries[..|entries| - 1], entries[|entries| - 1];
      ByKidDomain(rest, kid);
      if kid in ByKid(rest) {
        var i :| 0 <= i < |rest| && rest[i].kid == Some(kid);
        assert entries[i].kid == Some(kid);
      }
      if last.kid.value == kid { assert entries[|entries| - 1].kid == Some(kid); }
      if i :| 0 <= i < |entries| && entries[i].kid == Some(kid) {
        if i < |rest| { assert rest[i].kid == Some(kid); }
      }
    }
  }

  /** In a list without repeated kids every entry is found again under its own kid. */
  lemma {:induction false} ByKidFindsEveryEntry(entries: seq<Entry>, i: nat)
    requires AllStrongAndDistinct(entries) && i < |entries|
    ensures entries[i].kid.value in ByKid(entries)
    ensures ByKid(entries)[entries[i].kid.value] == Key(entries[i].n.value, entries[i].e.value)
    decreases |entries|
  {
    if i < |entries| - 1 {
      ByKidFindsEveryEntry(entries[..|entries| - 1], i);
      assert entries[i].kid != entries[|entries| - 1].kid;
    }
  }

  ghost predicate UsableList(body: Body) {
    body.KeyList? && 1 <= |body.entries| <= 32 && AllStrongAndDistinct(body.entries)
  }

  lemma EveryEntryIsFound(entries: seq<Entry>)
    requires AllStrongAndDistinct(entries)
    ensures forall i :: 0 <= i < |entries| ==>
      && entries[i].kid.value in ByKid(entries)
      && ByKid(entries)[entries[i].kid.value] == Key(entries[i].n.value, entries[i].e.value)
  {
    forall i | 0 <= i < |entries|
      ensures entries[i].kid.value in ByKid(entries)
      ensures ByKid(entries)[entries[i].kid.value] == Key(entries[i].n.value, entries[i].e.value)
    {
      ByKidFindsEveryEntry(entries, i);
    }
  }

  /** One more entry: it joins the keys, or the list is unusable. */
  lemma NextEntry(entries: seq<Entry>, k: nat)
    requires k < |entries| && AllStrongAndDistinct(entries[..k])
    ensures
      if Strong(entries[k]) && entries[k].kid.value !in ByKid(entries[..k]) then
        && AllStrongAndDistinct(entries[..k + 1])
        && ByKid(entries[..k + 1])
           == ByKid(entries[..k])[entries[k].kid.value := Key(entries[k].n.value, entries[k].e.value)]
      else
        !AllStrongAndDistinct(entries)
  {
    if Strong(entries[k]) {
      var kid := entries[k].kid.value;
      ByKidDomain(entries[..k], kid);
      if kid in ByKid(entries[..k]) {
        var i :| 0 <= i < k && entries[..k][i].kid == Some(kid);
        assert entries[i].kid == entries[k].kid;
      } else {
        assert entries[..k + 1][..k] == entries[..k];
        forall i | 0 <= i < k ensures entries[i].kid != entries[k].kid {
          assert entries[..k][i].kid != Some(kid);
        }
      }
    }
  }

  /** The loop of fetchKeys; None is its exception. */
  method ReadKeys(body: Body) returns (keys: Option<map<string, Key>>)
    ensures keys.Some? <==> UsableList(body)
    ensures keys.Some? ==> keys.value == ByKid(body.entries)
    ensures keys.Some? ==> forall i :: 0 <= i < |body.entries| ==>
      && body.entries[i].kid.value in keys.value
      && keys.value[body.entries[i].kid.value] == Key(body.entries[i].n.value, body.entries[i].e.value)
  {
    if body.NotAKeyList? || |body.entries| == 0 || |body.entries| > MAX_KEYS { return None; }
    var entries := body.entries;
    var found: map<string, Key> := map[];
    for k := 0 to |entries|
      invariant AllStrongAndDistinct(entries[..k])
      invariant found == ByKid(entries[..k])
    {
      var raw := entries[k];
      NextEntry(entries, k);
      StrongExactly(raw);
      if !WellFormed(raw) || raw.kid.value in found { return None; }
      if raw.bits.None? || raw.bits.value < 2048 { return None; }
      found := found[raw.kid.value := Key(raw.n.value, raw.e.value)];
    }
    assert entries[..|entries|] == entries;
    EveryEntryIsFound(entries);
    keys := Some(found);
  }

  // ---------------------------------------------------------------- freshness

  /** Cache-Control and Age of the response: max-age (0 when absent), no-cache or no-store, and Age (0 when absent). */
  datatype Headers = Headers(maxAge: nat, noStore: bool, age: int)

  function Ttl(h: Headers): nat {
    if h.noStore then 0 else Max(0, Min(h.maxAge - Max(0, h.age), MAX_TTL_S))
  }

  // ---------------------------------------------------------------- the steps

  datatype KeySet = KeySet(keys: map<string, Key>, expiresAt: int)

  /** None: no connection, a bad status, or a body that is not JSON. */
  datatype Response = Unreachable | Received(body: Body, headers: Headers)

  /** `pending`: the request is out, or its outcome is known and `finally` has not run. */
  datatype Flight = Flying | Landed(outcome: Option<KeySet>)

  datatype Event = Started(at: int) | Settled

  /** The end of a fetch: what came back, and when. */
  datatype Landing = Landing(response: Response, at: int)

  /**
   A key handed to a caller: from the cached set of a fetch (its index among all) at a time, when `known` fetches had
   ended; or from the fetch the caller waited for.
   */
  datatype Answer =
    | FromCache(kid: string, key: Key, flight: nat, at: int, known: nat)
    | FromFetch(kid: string, key: Key, flight: nat)

  /** `cachedFrom`, `log`, `landings` and `answers` are history. */
  datatype State = State(cached: Option<KeySet>, pending: Option<Flight>, retryAfter: int, waiting: seq<string>,
                         cachedFrom: nat, log: seq<Event>, landings: seq<Landing>, answers: seq<Answer>)

  datatype Step = Get(kid: string, now: int) | Land(response: Response, now: int) | Settle

  const INITIAL := State(None, None, 0, [], 0, [], [], [])

  predicate Hit(cached: Option<KeySet>, kid: string, now: int) {
    cached.Some? && cached.value.expiresAt > now && kid in cached.value.keys
  }

  /** The set that fetchKeys builds from a response. */
  ghost function Fetched(response: Response, now: int): Option<KeySet> {
    if response.Received? && UsableList(response.body)
    then Some(KeySet(ByKid(response.body.entries), now + Ttl(response.headers) * 1000))
    else None
  }

  function KeyOf(outcome: Option<KeySet>, kid: string): Option<Key> {
    if outcome.Some? && kid in outcome.value.keys then Some(outcome.value.keys[kid]) else None
  }

  /**
   What the callers waiting for a fetch receive, in order; a kid the set lacks and a failed fetch give an error
   instead.
   */
  function Delivered(waiting: seq<string>, outcome: Option<KeySet>, flight: nat): seq<Answer>
    decreases |waiting|
  {
    if waiting == [] then [] else
    var rest, kid := Delivered(waiting[..|waiting| - 1], outcome, flight), waiting[|waiting| - 1];
    var key := KeyOf(outcome, kid);
    if key.Some? then rest + [FromFetch(kid, key.value, flight)] else rest
  }

  ghost function Next(st: State, step: Step): State {
    match step
    case Get(kid, now) =>
      if Hit(st.cached, kid, now) then
        var answer := FromCache(kid, st.cached.value.keys[kid], st.cachedFrom, now, |st.landings|);
        st.(answers := st.answers + [answer])
      else if st.pending.Some? then
        st.(waiting := st.waiting + [kid])
      else if now < st.retryAfter then st
      else
        st.(pending := Some(Flying), retryAfter := now + RETRY_INTERVAL_MS, waiting := [kid],
            log := st.log + [Started(now)])
    case Land(response, now) =>
      if st.pending != Some(Flying) then st else
      var outcome := Fetched(response, now);
      var landed := st.(pending := Some(Landed(outcome)), landings := st.landings + [Landing(response, now)]);
      if outcome.None? then landed else landed.(cached := outcome, cachedFrom := |st.landings|)
    case Settle =>
      if st.pending.None? || st.pending.value.Flying? || st.landings == [] then st else
      st.(pending := None, waiting := [], log := st.log + [Settled],
          answers := st.answers + Delivered(st.waiting, st.pending.value.outcome, |st.landings| - 1))
  }

  ghost function Run(st: State, trace: seq<Step>): State
    decreases |trace|
  {
    if trace == [] then st else Next(Run(st, trace[..|trace| - 1]), trace[|trace| - 1])
  }

  // ---------------------------------------------------------------- what every run keeps

  /** Starts and settlements alternate, beginning with a start. */
  ghost predicate Alternates(log: seq<Event>) {
    forall i :: 0 <= i < |log| ==> (log[i].Started? <==> i % 2 == 0)
  }

  /** Any two starts are a minute apart for every start between them. */
  ghost predicate Spaced(log: seq<Event>) {
    forall i, j :: 0 <= i < j < |log| && log[i].Started? && log[j].Started? ==>
      log[j].at - log[i].at >= 60_000 * ((j - i) / 2)
  }

  /** `retryAfter` is a minute after the last start, and 0 without one. */
  ghost predicate Throttles(log: seq<Event>, retryAfter: int) {
    if log == [] then retryAfter == 0 else
    var last := if |log| % 2 == 1 then |log| - 1 else |log| - 2;
    0 <= last && log[last].Started? && retryAfter == log[last].at + RETRY_INTERVAL_MS
  }

  /** The set that the n-th fetch brought, if it brought one. */
  ghost function SetOf(landings: seq<Landing>, n: nat): Option<KeySet> {
    if n < |landings| then Fetched(landings[n].response, landings[n].at) else None
  }

  /**
   A cached key was in the set of the last fetch that had brought one, and unexpired; an awaited one in its fetch's set.
   */
  ghost predicate Justified(answer: Answer, landings: seq<Landing>) {
    && KeyOf(SetOf(landings, answer.flight), answer.kid) == Some(answer.key)
    && (answer.FromCache? ==>
          && answer.at < SetOf(landings, answer.flight).value.expiresAt
          && answer.known <= |landings|
          && forall n :: answer.flight < n < answer.known ==> SetOf(landings, n).None?)
  }

  /** The cached set is that of the last fetch that brought one. */
  ghost predicate CacheIsLatest(cached: Option<KeySet>, cachedFrom: nat, landings: seq<Landing>) {
    && (cached.Some? ==> cachedFrom < |landings| && SetOf(landings, cachedFrom) == cached)
    && forall n :: 0 <= n < |landings| && (cached.Some? ==> cachedFrom < n) ==> SetOf(landings, n).None?
  }

  ghost predicate Invariant(st: State) {
    && Alternates(st.log) && Spaced(st.log) && Throttles(st.log, st.retryAfter)
    && (st.pending.Some? <==> |st.log| % 2 == 1)
    && (st.pending.None? ==> st.waiting == [])
    && |st.landings| == |st.log| / 2 + (if st.pending.Some? && st.pending.value.Landed? then 1 else 0)
    && (st.pending.Some? && st.pending.value.Landed? ==>
          st.pending.value.outcome == SetOf(st.landings, |st.landings| - 1))
    && CacheIsLatest(st.cached, st.cachedFrom, st.landings)
    && (forall i :: 0 <= i < |st.answers| ==> Justified(st.answers[i], st.landings))
  }

  lemma {:induction false} DeliveriesAreJustified(waiting: seq<string>, landings: seq<Landing>, flight: nat)
    ensures forall i :: 0 <= i < |Delivered(waiting, SetOf(landings, flight), flight)| ==>
      Justified(Delivered(waiting, SetOf(landings, flight), flight)[i], landings)
    decreases |waiting|
  {
    if waiting != [] { DeliveriesAreJustified(waiting[..|waiting| - 1], landings, flight); }
  }

  lemma StartKeepsSpacing(log: seq<Event>, retryAfter: int, now: int)
    requires Alternates(log) && Spaced(log) && Throttles(log, retryAfter) && |log| % 2 == 0 && retryAfter <= now
    ensures Alternates(log + [Started(now)]) && Spaced(log + [Started(now)])
    ensures Throttles(log + [Started(now)], now + RETRY_INTERVAL_MS)
  {
    forall i | 0 <= i < |log| && log[i].Started?
      ensures now - log[i].at >= RETRY_INTERVAL_MS * ((|log| - i) / 2)
    {
      var last := |log| - 2;
      assert (|log| - i) / 2 == (last - i) / 2 + 1;
      if i < last { assert log[last].at - log[i].at >= RETRY_INTERVAL_MS * ((last - i) / 2); }
    }
  }

  lemma SettlementKeepsSpacing(log: seq<Event>, retryAfter: int)
    requires Alternates(log) && Spaced(log) && Throttles(log, retryAfter) && |log| % 2 == 1
    ensures Alternates(log + [Settled]) && Spaced(log + [Settled]) && Throttles(log + [Settled], retryAfter)
  {
  }

  /** Later fetches do not change what an earlier one brought. */
  lemma LandingKeepsAnswers(st: State, landing: Landing)
    requires Invariant(st)
    ensures forall i :: 0 <= i < |st.answers| ==> Justified(st.answers[i], st.landings + [landing])
  {
    forall i | 0 <= i < |st.answers| ensures Justified(st.answers[i], st.landings + [landing]) {
      var answer := st.answers[i];
      assert Justified(answer, st.landings);
      assert forall n: nat :: n < |st.landings| ==> SetOf(st.landings + [landing], n) == SetOf(st.landings, n);
    }
  }

  lemma LandingKeepsLatest(st: State, landing: Landing)
    requires Invariant(st)
    ensures
      var landings, outcome := st.landings + [landing], Fetched(landing.response, landing.at);
      if outcome.Some? then CacheIsLatest(outcome, |st.landings|, landings)
      else CacheIsLatest(st.cached, st.cachedFrom, landings)
  {
    var landings := st.landings + [landing];
    assert forall n: nat :: n < |st.landings| ==> SetOf(landings, n) == SetOf(st.landings, n);
    assert SetOf(landings, |st.landings|) == Fetched(landing.response, landing.at);
  }

  lemma MoreAnswersAreJustified(answers: seq<Answer>, more: seq<Answer>, landings: seq<Landing>)
    requires forall i :: 0 <= i < |answers| ==> Justified(answers[i], landings)
    requires forall i :: 0 <= i < |more| ==> Justified(more[i], landings)
    ensures forall i :: 0 <= i < |answers + more| ==> Justified((answers + more)[i], landings)
  {
  }

  lemma NextKeepsInvariant(st: State, step: Step)
    requires Invariant(st)
    ensures Invariant(Next(st, step))
  {
    match step
    case Get(kid, now) =>
      if Hit(st.cached, kid, now) {
        var answer := FromCache(kid, st.cached.value.keys[kid], st.cachedFrom, now, |st.landings|);
        assert Justified(answer, st.landings);
        MoreAnswersAreJustified(st.answers, [answer], st.landings);
      } else if st.pending.None? && now >= st.retryAfter {
        StartKeepsSpacing(st.log, st.retryAfter, now);
      }
    case Land(response, now) =>
      if st.pending == Some(Flying) {
        LandingKeepsAnswers(st, Landing(response, now));
        LandingKeepsLatest(st, Landing(response, now));
      }
    case Settle =>
      if st.pending.Some? && st.pending.value.Landed? {
        SettlementKeepsSpacing(st.log, st.retryAfter);
        DeliveriesAreJustified(st.waiting, st.landings, |st.landings| - 1);
        MoreAnswersAreJustified(st.answers, Delivered(st.waiting, st.pending.value.outcome, |st.landings| - 1),
                                st.landings);
      }
  }

  lemma {:induction false} RunKeepsInvariant(st: State, trace: seq<Step>)
    requires Invariant(st)
    ensures Invariant(Run(st, trace))
    decreases |trace|
  {
    if trace != [] {
      RunKeepsInvariant(st, trace[..|trace| - 1]);
      NextKeepsInvariant(Run(st, trace[..|trace| - 1]), trace[|trace| - 1]);
    }
  }

  // ---------------------------------------------------------------- the theorems

  /**
   However lookups, fetches and clocks interleave: fetches never overlap, and the k-th after one starts k minutes later
   or more.
   */
  lemma FetchesAreSerialAndSpaced(trace: seq<Step>)
    ensures Alternates(Run(INITIAL, trace).log) && Spaced(Run(INITIAL, trace).log)
  {
    RunKeepsInvariant(INITIAL, trace);
  }

  /**
   Every key handed out was published in a fetched response under its id; a cached one in the last response that had
   been usable when it was handed out, and before that response's expiry.
   */
  lemma EveryKeyIsJustified(trace: seq<Step>, i: nat)
    requires i < |Run(INITIAL, trace).answers|
    ensures
      var st := Run(INITIAL, trace);
      && Justified(st.answers[i], st.landings)
      && Published(st.landings[st.answers[i].flight].response, st.answers[i].kid, st.answers[i].key)
  {
    RunKeepsInvariant(INITIAL, trace);
    var st := Run(INITIAL, trace);
    assert Justified(st.answers[i], st.landings);
    KeysArePublished(st.landings[st.answers[i].flight].response, st.landings[st.answers[i].flight].at,
                     st.answers[i].kid);
  }

  /** The response is a usable list with a strong key under this id. */
  ghost predicate Published(response: Response, kid: string, key: Key) {
    && response.Received? && UsableList(response.body)
    && exists j :: 0 <= j < |response.body.entries| && Strong(response.body.entries[j])
         && response.body.entries[j].kid == Some(kid)
         && Key(response.body.entries[j].n.value, response.body.entries[j].e.value) == key
  }

  /** The caller gets the key that the response has under its id, and nothing if it has none. */
  ghost predicate Gets(response: Response, kid: string, reply: Option<Key>) {
    forall key :: reply == Some(key) <==> Published(response, kid, key)
  }

  lemma KeysArePublished(response: Response, now: int, kid: string)
    requires KeyOf(Fetched(response, now), kid).Some?
    ensures Published(response, kid, KeyOf(Fetched(response, now), kid).value)
  {
    var entries := response.body.entries;
    ByKidDomain(entries, kid);
    var j :| 0 <= j < |entries| && entries[j].kid == Some(kid);
    ByKidFindsEveryEntry(entries, j);
  }

  /** A fetch brings a set exactly for a usable list, and in it exactly the published keys. */
  lemma FetchedExactly(response: Response, now: int)
    ensures Fetched(response, now).Some? <==> response.Received? && UsableList(response.body)
    ensures forall kid, key :: KeyOf(Fetched(response, now), kid) == Some(key) <==> Published(response, kid, key)
  {
    forall kid, key ensures KeyOf(Fetched(response, now), kid) == Some(key) <==> Published(response, kid, key) {
      if KeyOf(Fetched(response, now), kid) == Some(key) { KeysArePublished(response, now, kid); }
      if Published(response, kid, key) {
        var entries := response.body.entries;
        var j :| 0 <= j < |entries| && Strong(entries[j]) && entries[j].kid == Some(kid)
                 && Key(entries[j].n.value, entries[j].e.value) == key;
        ByKidFindsEveryEntry(entries, j);
      }
    }
  }

  /** A response that came then may still be used: its age is under max-age, and an hour has not gone by. */
  ghost predicate Fresh(h: Headers, receivedAt: int, now: int) {
    && !h.noStore && now - receivedAt < 3_600_000
    && (if h.age > 0 then h.age else 0) * 1000 + now - receivedAt < h.maxAge * 1000
  }

  /**
   Once the clock has passed its reception, a set counts as unexpired exactly while its response is fresh in the sense
   of section 4.2 of RFC 9111 (its age on arrival plus the time since is under max-age) and an hour has not gone by.
   */
  lemma FreshExactly(response: Response, receivedAt: int, now: int)
    requires Fetched(response, receivedAt).Some? && receivedAt <= now
    ensures now < Fetched(response, receivedAt).value.expiresAt <==> Fresh(response.headers, receivedAt, now)
  {
    var h := response.headers;
    var left := h.maxAge - Max(0, h.age);
    assert left * 1000 == h.maxAge * 1000 - Max(0, h.age) * 1000;
  }

  /** Some fetch has started less than a minute before `now`. */
  ghost predicate StartedWithinAMinute(log: seq<Event>, now: int) {
    exists i :: 0 <= i < |log| && log[i].Started? && now < log[i].at + 60_000
  }

  /** The retry time says when the latest of all fetches started. */
  lemma RetryTimeExactly(log: seq<Event>, retryAfter: int, now: int)
    requires Alternates(log) && Spaced(log) && Throttles(log, retryAfter)
    ensures now < retryAfter <==> StartedWithinAMinute(log, now) || (log == [] && now < 0)
  {
    if log != [] {
      var last := if |log| % 2 == 1 then |log| - 1 else |log| - 2;
      forall i | 0 <= i < |log| && log[i].Started? ensures log[i].at <= log[last].at {
        if i < last { assert log[last].at - log[i].at >= RETRY_INTERVAL_MS * ((last - i) / 2); }
      }
      if now < retryAfter { assert log[last].Started? && now < log[last].at + RETRY_INTERVAL_MS; }
    }
  }

  /** The n-th fetch is the last that brought a set, and that set has the key and has not expired. */
  ghost predicate LatestHas(landings: seq<Landing>, n: nat, kid: string, now: int) {
    && n < |landings| && (forall m :: n < m < |landings| ==> SetOf(landings, m).None?)
    && SetOf(landings, n).Some? && now < SetOf(landings, n).value.expiresAt && kid in SetOf(landings, n).value.keys
  }

  /** What a lookup without a cached key does. */
  ghost predicate LookedUp(st: State, next: State, kid: string, now: int) {
    if st.log != [] && st.log[|st.log| - 1].Started? then
      next == st.(waiting := st.waiting + [kid])
    else if StartedWithinAMinute(st.log, now) || (st.log == [] && now < 0) then
      next == st
    else
      next == st.(pending := Some(Flying), retryAfter := now + 60_000, waiting := [kid], log := st.log + [Started(now)])
  }

  /** A key handed out from the cache, and nothing else. */
  ghost predicate ServedFrom(st: State, next: State, n: nat, kid: string, now: int) {
    && LatestHas(st.landings, n, kid, now)
    && next == st.(answers := st.answers
                              + [FromCache(kid, SetOf(st.landings, n).value.keys[kid], n, now, |st.landings|)])
  }

  /** The cache answers exactly where the set fetched last has the key. */
  lemma HitsExactly(st: State, kid: string, now: int)
    requires Invariant(st)
    ensures
      if Hit(st.cached, kid, now) then ServedFrom(st, Next(st, Get(kid, now)), st.cachedFrom, kid, now)
      else forall n :: !LatestHas(st.landings, n, kid, now)
  {
  }

  lemma UnservedLookup(st: State, kid: string, now: int)
    requires Invariant(st) && !Hit(st.cached, kid, now)
    ensures LookedUp(st, Next(st, Get(kid, now)), kid, now)
  {
    RetryTimeExactly(st.log, st.retryAfter, now);
  }

  /**
   In every run a lookup is answered from the set that was fetched last, if that has the key and has not expired, and
   nothing else happens. Otherwise it waits if the last fetch has not settled; failing that, it fails if any fetch has
   started within the minute before it (or the clock is before 1970), and starts one if not.
   */
  lemma LookupsExactly(trace: seq<Step>, kid: string, now: int)
    ensures
      var st := Run(INITIAL, trace);
      if exists n :: LatestHas(st.landings, n, kid, now) then
        exists n :: ServedFrom(st, Next(st, Get(kid, now)), n, kid, now)
      else
        LookedUp(st, Next(st, Get(kid, now)), kid, now)
  {
    var st := Run(INITIAL, trace);
    RunKeepsInvariant(INITIAL, trace);
    HitsExactly(st, kid, now);
    if !Hit(st.cached, kid, now) { UnservedLookup(st, kid, now); }
  }

  /** A lookup that starts a fetch gets the key that its response publishes, whenever that arrives. */
  lemma FirstLookupIsAnswered(kid: string, key: Key, response: Response, now: nat, later: int)
    requires Published(response, kid, key)
    ensures
      var last := Run(INITIAL, [Get(kid, now), Land(response, later), Settle]);
      && last.answers == [FromFetch(kid, key, 0)] && last.cached == Fetched(response, later)
      && last.pending.None? && last.waiting == []
  {
    var got, landed := [Get(kid, now)], [Get(kid, now), Land(response, later)];
    FetchedExactly(response, later);
    assert got[..0] == [] && landed[..1] == got && [Get(kid, now), Land(response, later), Settle][..2] == landed;
    assert Run(INITIAL, got) == Next(INITIAL, Get(kid, now));
    var outcome := Fetched(response, later);
    assert Run(INITIAL, landed).waiting == [kid] && Run(INITIAL, landed).pending == Some(Landed(outcome));
    assert Delivered([kid], outcome, 0) == [FromFetch(kid, key, 0)] by {
      assert KeyOf(outcome, kid) == Some(key) && [kid][..0] == [];
      assert Delivered([], outcome, 0) == [];
    }
  }

  /** A set that has landed gives each caller what the response has for it. */
  lemma LandedKey(st: State, kid: string)
    requires Invariant(st) && st.pending.Some? && st.pending.value.Landed?
    ensures st.landings != []
    ensures Gets(st.landings[|st.landings| - 1].response, kid, KeyOf(st.pending.value.outcome, kid))
  {
    FetchedExactly(st.landings[|st.landings| - 1].response, st.landings[|st.landings| - 1].at);
  }

  // ---------------------------------------------------------------- the service

  datatype Reply = Served(key: Key) | Unavailable | Awaiting

  /**
   The class of google-signing-keys.ts; `waiting` are the callers that await `pending`, and Land and Settle are the
   continuations of a fetch.
   */
  class GoogleSigningKeys {
    var cached: Option<KeySet>
    var pending: Option<Flight>
    var retryAfter: int
    var waiting: seq<string>
    ghost var cachedFrom: nat
    ghost var log: seq<Event>
    ghost var landings: seq<Landing>
    ghost var answers: seq<Answer>

    constructor ()
      ensures Now() == INITIAL && Invariant(Now())
    {
      cached, pending, retryAfter, waiting := None, None, 0, [];
      cachedFrom, log, landings, answers := 0, [], [], [];
    }

    ghost function Now(): State
      reads this
    {
      State(cached, pending, retryAfter, waiting, cachedFrom, log, landings, answers)
    }

    method Lookup(kid: string, now: int) returns (reply: Reply)
      requires Invariant(Now())
      modifies this`pending, this`retryAfter, this`waiting, this`log, this`answers
      ensures Invariant(Now()) && Now() == Next(old(Now()), Get(kid, now))
      ensures reply.Served? <==> cached.Some? && now < cached.value.expiresAt && kid in cached.value.keys
      ensures reply.Served? ==> reply.key == cached.value.keys[kid]
      ensures reply.Served? ==> answers == old(answers) + [FromCache(kid, reply.key, cachedFrom, now, |landings|)]
      ensures reply.Unavailable? <==> !reply.Served? && old(pending).None? && now < old(retryAfter)
      ensures !reply.Awaiting? ==>
        pending == old(pending) && waiting == old(waiting) && retryAfter == old(retryAfter) && log == old(log)
      ensures reply.Awaiting? ==> waiting == old(waiting) + [kid]
      ensures reply.Awaiting? && old(pending).Some? ==>
        pending == old(pending) && retryAfter == old(retryAfter) && log == old(log)
      ensures reply.Awaiting? && old(pending).None? ==>
        pending == Some(Flying) && retryAfter == now + 60_000 && log == old(log) + [Started(now)]
    {
      ghost var next := Next(Now(), Get(kid, now));
      NextKeepsInvariant(Now(), Get(kid, now));
      if cached.Some? && cached.value.expiresAt > now && kid in cached.value.keys {
        answers := answers + [FromCache(kid, cached.value.keys[kid], cachedFrom, now, |landings|)];
        assert Now() == next;
        return Served(cached.value.keys[kid]);
      }
      if pending.None? {
        if now < retryAfter { return Unavailable; }
        retryAfter := now + RETRY_INTERVAL_MS;
        pending := Some(Flying);
        log := log + [Started(now)];
      }
      waiting := waiting + [kid];
      assert Now() == next;
      reply := Awaiting;
    }

    method Land(response: Response, now: int)
      requires Invariant(Now()) && pending == Some(Flying)
      modifies this`cached, this`pending, this`cachedFrom, this`landings
      ensures Invariant(Now()) && Now() == Next(old(Now()), Step.Land(response, now))
      ensures pending.Some? && pending.value.Landed? && landings == old(landings) + [Landing(response, now)]
      ensures if response.Received? && UsableList(response.body) then
                && cached.Some? && pending.value.outcome == cached && cachedFrom == |old(landings)|
                && (forall kid, key :: KeyOf(cached, kid) == Some(key) <==> Published(response, kid, key))
                && forall t :: now <= t ==> (t < cached.value.expiresAt <==> Fresh(response.headers, now, t))
              else
                pending.value.outcome == None && cached == old(cached) && cachedFrom == old(cachedFrom)
    {
      FetchedExactly(response, now);
      NextKeepsInvariant(Now(), Step.Land(response, now));
      var outcome: Option<KeySet> := None;
      if response.Received? {
        var keys := ReadKeys(response.body);
        if keys.Some? {
          outcome := Some(KeySet(keys.value, now + Ttl(response.headers) * 1000));
          cached := outcome;
          cachedFrom := |landings|;
        }
      }
      landings := landings + [Landing(response, now)];
      pending := Some(Landed(outcome));
    }

    /** `finally`, after which each waiting caller resumes with its key or an error. */
    method Settle() returns (replies: seq<Option<Key>>)
      requires Invariant(Now()) && pending.Some? && pending.value.Landed?
      modifies this`pending, this`waiting, this`log, this`answers
      ensures Invariant(Now()) && Now() == Next(old(Now()), Step.Settle)
      ensures |replies| == |old(waiting)|
      ensures pending.None? && waiting == [] && log == old(log) + [Settled]
      ensures landings != [] && forall i :: 0 <= i < |replies| ==>
        Gets(landings[|landings| - 1].response, old(waiting)[i], replies[i])
    {
      ghost var st := Now();
      NextKeepsInvariant(st, Step.Settle);
      ghost var delivered;
      replies, delivered := ResumeAll(waiting, pending.value.outcome, |landings| - 1);
      forall i | 0 <= i < |replies| ensures Gets(landings[|landings| - 1].response, waiting[i], replies[i]) {
        LandedKey(st, waiting[i]);
      }
      answers := answers + delivered;
      log := log + [Settled];
      waiting := [];
      pending := None;
      assert Now() == Next(st, Step.Settle);
    }
  }

  /** The end of `get`, once the awaited fetch has settled. */
  method Resume(kid: string, outcome: Option<KeySet>) returns (key: Option<Key>)
    ensures key == KeyOf(outcome, kid)
  {
    if outcome.None? || kid !in outcome.value.keys { return None; }
    key := Some(outcome.value.keys[kid]);
  }

  method ResumeAll(callers: seq<string>, outcome: Option<KeySet>, ghost flight: nat)
    returns (replies: seq<Option<Key>>, ghost delivered: seq<Answer>)
    ensures |replies| == |callers| && forall i :: 0 <= i < |replies| ==> replies[i] == KeyOf(outcome, callers[i])
    ensures delivered == Delivered(callers, outcome, flight)
  {
    delivered, replies := [], [];
    for k := 0 to |callers|
      invariant |replies| == k && forall i :: 0 <= i < k ==> replies[i] == KeyOf(outcome, callers[i])
      invariant delivered == Delivered(callers[..k], outcome, flight)
    {
      assert callers[..k + 1][..k] == callers[..k];
      var key := Resume(callers[k], outcome);
      if key.Some? { delivered := delivered + [FromFetch(callers[k], key.value, flight)]; }
      replies := replies + [key];
    }
    assert callers[..|callers|] == callers;
  }
}
