/**
 Rate limits in front of service credentials: server/src/auth/credential-rate-limit.ts over
 checkRateLimit, isRateLimited and recordRateLimitHit of server/src/redis.ts.
 */
module CredentialRateLimit {
  import opened Wrappers
  import opened RateLimit

  const WINDOW_MS := 300_000
  const PER_SOURCE := 120
  const FAILURES_PER_CLIENT_AND_SOURCE := 10

  datatype Endpoint = ProjectLogin | ServiceToken | ProjectLaunchCredential

  function Name(endpoint: Endpoint): string {
    match endpoint
    case ProjectLogin => "project_login"
    case ServiceToken => "service_token"
    case ProjectLaunchCredential => "project_launch_credential"
  }

  function SourceKey(endpoint: Endpoint, subject: string): string {
    "ratelimit:" + Name(endpoint) + ":src:" + subject
  }

  function FailureKey(endpoint: Endpoint, clientId: string, subject: string): string {
    "ratelimit:" + Name(endpoint) + ":fail:" + clientId + ":" + subject
  }

  // ---------------------------------------------------------------- keys of different sources never coincide

  ghost function Colons(text: string): nat {
    if text == "" then 0 else Colons(text[..|text| - 1]) + if text[|text| - 1] == ':' then 1 else 0
  }

  /**
   What rateLimitSubject returns: an IPv4 address or "anon" (no colon, no slash), or four groups of an
   IPv6 address followed by "::/64" (five colons, the last of them before "/64").
   */
  ghost predicate IsSubject(text: string) {
    || (':' !in text && '/' !in text)
    || (Colons(text) == 5 && |text| >= 4 && text[|text| - 4..] == ":/64")
  }

  lemma {:induction false} ColonsOfConcat(a: string, b: string)
    ensures Colons(a + b) == Colons(a) + Colons(b)
    decreases |b|
  {
    if b == "" {
      assert a + b == a;
    } else {
      assert (a + b)[..|a + b| - 1] == a + b[..|b| - 1];
      ColonsOfConcat(a, b[..|b| - 1]);
    }
  }

  lemma {:induction false} NoColons(a: string)
    requires ':' !in a
    ensures Colons(a) == 0
  {
    if a != "" { NoColons(a[..|a| - 1]); }
  }

  lemma SlashFollowsEveryColon(subject: string, k: nat)
    requires IsSubject(subject) && k < |subject| && subject[k] == ':'
    ensures '/' in subject[k + 1..]
  {
    var end := subject[|subject| - 4..];
    assert end[0] == ':' && end[1] == '/' && end[2] == '6' && end[3] == '4';
    assert subject[|subject| - 3] == end[1] && subject[|subject| - 2] == end[2] && subject[|subject| - 1] == end[3];
    assert subject[k + 1..][|subject| - 3 - (k + 1)] == '/';
  }

  lemma ShorterSubjectIsRecoverable(client1: string, subject1: string, client2: string, subject2: string)
    requires IsSubject(subject1) && IsSubject(subject2) && |subject1| <= |subject2|
    requires client1 + ":" + subject1 == client2 + ":" + subject2
    ensures client1 == client2 && subject1 == subject2
  {
    var whole := client1 + ":" + subject1;
    assert ":"[..0] == "";
    assert subject1 == whole[|whole| - |subject1|..] == subject2[|subject2| - |subject1|..];
    if |subject1| == |subject2| {
      assert client1 == whole[..|whole| - |subject1| - 1] == client2;
    } else {
      var cut := |subject2| - |subject1| - 1;
      assert subject2[cut] == whole[|whole| - |subject1| - 1] == ':';
      assert subject2 == subject2[..cut] + ":" + subject1;
      ColonsOfConcat(subject2[..cut] + ":", subject1);
      ColonsOfConcat(subject2[..cut], ":");
      SlashFollowsEveryColon(subject2, cut);
      assert false;
    }
  }

  /** A client id may contain anything, colons included, and still cannot reach into another source's key. */
  lemma SubjectIsRecoverable(client1: string, subject1: string, client2: string, subject2: string)
    requires IsSubject(subject1) && IsSubject(subject2)
    requires client1 + ":" + subject1 == client2 + ":" + subject2
    ensures client1 == client2 && subject1 == subject2
  {
    if |subject1| <= |subject2| {
      ShorterSubjectIsRecoverable(client1, subject1, client2, subject2);
    } else {
      ShorterSubjectIsRecoverable(client2, subject2, client1, subject1);
    }
  }

  lemma EndpointIsRecoverable(endpoint1: Endpoint, rest1: string, endpoint2: Endpoint, rest2: string)
    requires "ratelimit:" + Name(endpoint1) + ":" + rest1 == "ratelimit:" + Name(endpoint2) + ":" + rest2
    ensures endpoint1 == endpoint2 && rest1 == rest2
  {
    var whole1, whole2 := "ratelimit:" + Name(endpoint1) + ":" + rest1, "ratelimit:" + Name(endpoint2) + ":" + rest2;
    assert whole1[10] == Name(endpoint1)[0] && whole2[10] == Name(endpoint2)[0];
    assert whole1[19] == Name(endpoint1)[9] && whole2[19] == Name(endpoint2)[9];
    assert rest1 == whole1[11 + |Name(endpoint1)|..] && rest2 == whole2[11 + |Name(endpoint2)|..];
  }

  lemma KeysAreDistinct(endpoint1: Endpoint, client1: string, subject1: string, endpoint2: Endpoint, client2: string,
      subject2: string)
    requires IsSubject(subject1) && IsSubject(subject2)
    ensures SourceKey(endpoint1, subject1) == SourceKey(endpoint2, subject2) ==>
      endpoint1 == endpoint2 && subject1 == subject2
    ensures SourceKey(endpoint1, subject1) != FailureKey(endpoint2, client2, subject2)
    ensures FailureKey(endpoint1, client1, subject1) == FailureKey(endpoint2, client2, subject2) ==>
      endpoint1 == endpoint2 && client1 == client2 && subject1 == subject2
  {
    SourceKeyParts(endpoint1, subject1);
    SourceKeyParts(endpoint2, subject2);
    FailureKeyParts(endpoint1, client1, subject1);
    FailureKeyParts(endpoint2, client2, subject2);
    if SourceKey(endpoint1, subject1) == SourceKey(endpoint2, subject2) {
      EndpointIsRecoverable(endpoint1, "src:" + subject1, endpoint2, "src:" + subject2);
      assert subject1 == ("src:" + subject1)[4..] == subject2;
    }
    assert ("src:" + subject1)[0] == 's' && ("fail:" + (client2 + ":" + subject2))[0] == 'f';
    if SourceKey(endpoint1, subject1) == FailureKey(endpoint2, client2, subject2) {
      EndpointIsRecoverable(endpoint1, "src:" + subject1, endpoint2, "fail:" + (client2 + ":" + subject2));
      assert false;
    }
    if FailureKey(endpoint1, client1, subject1) == FailureKey(endpoint2, client2, subject2) {
      var pair1, pair2 := client1 + ":" + subject1, client2 + ":" + subject2;
      EndpointIsRecoverable(endpoint1, "fail:" + pair1, endpoint2, "fail:" + pair2);
      assert pair1 == ("fail:" + pair1)[5..] == pair2;
      SubjectIsRecoverable(client1, subject1, client2, subject2);
    }
  }

  lemma SourceKeyParts(endpoint: Endpoint, subject: string)
    ensures SourceKey(endpoint, subject) == "ratelimit:" + Name(endpoint) + ":" + ("src:" + subject)
  {
  }

  lemma FailureKeyParts(endpoint: Endpoint, clientId: string, subject: string)
    ensures FailureKey(endpoint, clientId, subject)
            == "ratelimit:" + Name(endpoint) + ":" + ("fail:" + (clientId + ":" + subject))
  {
  }

  // ---------------------------------------------------------------- runs of credential requests

  type Counters = map<string, Counter>

  datatype Request = Request(endpoint: Endpoint, clientId: string, subject: string, now: int)

  datatype Event =
    | BeforeCheck(request: Request)
    | WrongCredential(request: Request)

  function Lookup(counters: Counters, key: string): Option<Counter> {
    if key in counters then Some(counters[key]) else None
  }

  function Bump(counters: Counters, key: string, now: int): Counters {
    counters[key := Hit(Lookup(counters, key), WINDOW_MS, now)]
  }

  function After(counters: Counters, event: Event): Counters {
    var r := event.request;
    match event
    case BeforeCheck(_) => Bump(counters, SourceKey(r.endpoint, r.subject), r.now)
    case WrongCredential(_) => Bump(counters, FailureKey(r.endpoint, r.clientId, r.subject), r.now)
  }

  predicate Admitted(counters: Counters, r: Request) {
    && CountAt(Lookup(counters, SourceKey(r.endpoint, r.subject)), r.now) < PER_SOURCE
    && CountAt(Lookup(counters, FailureKey(r.endpoint, r.clientId, r.subject)), r.now) < FAILURES_PER_CLIENT_AND_SOURCE
  }

  /** The verdicts on one source's requests in a run. */
  ghost function Verdicts(counters: Counters, events: seq<Event>, subject: string): seq<bool>
    decreases |events|
  {
    if events == [] then [] else
    var rest := Verdicts(After(counters, events[0]), events[1..], subject);
    if events[0].BeforeCheck? && events[0].request.subject == subject then
      [Admitted(counters, events[0].request)] + rest
    else rest
  }

  /** The part of a run that comes from one source. */
  ghost function From(events: seq<Event>, subject: string): seq<Event>
    decreases |events|
  {
    if events == [] then []
    else if events[0].request.subject == subject then [events[0]] + From(events[1..], subject)
    else From(events[1..], subject)
  }

  ghost predicate AgreeFor(a: Counters, b: Counters, subject: string) {
    && (forall endpoint :: Lookup(a, SourceKey(endpoint, subject)) == Lookup(b, SourceKey(endpoint, subject)))
    && (forall endpoint, clientId ::
          Lookup(a, FailureKey(endpoint, clientId, subject)) == Lookup(b, FailureKey(endpoint, clientId, subject)))
  }

  /** Another source's event leaves this source's counters alone. */
  lemma OthersLeaveCountersAlone(counters: Counters, event: Event, subject: string)
    requires IsSubject(event.request.subject) && IsSubject(subject) && event.request.subject != subject
    ensures AgreeFor(counters, After(counters, event), subject)
  {
    var r := event.request;
    forall endpoint ensures Lookup(counters, SourceKey(endpoint, subject))
        == Lookup(After(counters, event), SourceKey(endpoint, subject)) {
      KeysAreDistinct(endpoint, "", subject, r.endpoint, r.clientId, r.subject);
    }
    forall endpoint, clientId
      ensures Lookup(counters, FailureKey(endpoint, clientId, subject))
              == Lookup(After(counters, event), FailureKey(endpoint, clientId, subject))
    {
      KeysAreDistinct(endpoint, clientId, subject, r.endpoint, r.clientId, r.subject);
      KeysAreDistinct(r.endpoint, r.clientId, r.subject, endpoint, clientId, subject);
    }
  }

  /** A source's own event acts alike on counters that agree for it. */
  lemma OwnEventActsAlike(a: Counters, b: Counters, event: Event, subject: string)
    requires AgreeFor(a, b, subject) && event.request.subject == subject
    ensures AgreeFor(After(a, event), After(b, event), subject)
  {
    var r := event.request;
    assert Lookup(a, SourceKey(r.endpoint, subject)) == Lookup(b, SourceKey(r.endpoint, subject));
    assert Lookup(a, FailureKey(r.endpoint, r.clientId, subject))
           == Lookup(b, FailureKey(r.endpoint, r.clientId, subject));
  }

  /** In every run, a source gets the verdicts it would get if no other source sent anything. */
  lemma {:induction false} VerdictsDependOnOwnRequests(a: Counters, b: Counters, events: seq<Event>, subject: string)
    requires IsSubject(subject) && AgreeFor(a, b, subject)
    requires forall i :: 0 <= i < |events| ==> IsSubject(events[i].request.subject)
    ensures Verdicts(a, events, subject) == Verdicts(b, From(events, subject), subject)
    decreases |events|
  {
    if events != [] {
      var event := events[0];
      if event.request.subject == subject {
        OwnEventActsAlike(a, b, event, subject);
        assert From(events, subject)[1..] == From(events[1..], subject);
        VerdictsDependOnOwnRequests(After(a, event), After(b, event), events[1..], subject);
      } else {
        OthersLeaveCountersAlone(a, event, subject);
        VerdictsDependOnOwnRequests(After(a, event), b, events[1..], subject);
      }
    }
  }

  /** Requests with the right credential, however many, leave every failure budget as it was. */
  lemma {:induction false} SuccessesKeepFailureBudgets(counters: Counters, requests: seq<Request>, endpoint: Endpoint,
      clientId: string, subject: string)
    requires IsSubject(subject) && forall i :: 0 <= i < |requests| ==> IsSubject(requests[i].subject)
    ensures Lookup(AfterChecks(counters, requests), FailureKey(endpoint, clientId, subject))
            == Lookup(counters, FailureKey(endpoint, clientId, subject))
    decreases |requests|
  {
    if requests != [] {
      KeysAreDistinct(requests[0].endpoint, "", requests[0].subject, endpoint, clientId, subject);
      SuccessesKeepFailureBudgets(After(counters, BeforeCheck(requests[0])), requests[1..], endpoint,
                                  clientId, subject);
    }
  }

  ghost function AfterChecks(counters: Counters, requests: seq<Request>): Counters
    decreases |requests|
  {
    if requests == [] then counters else AfterChecks(After(counters, BeforeCheck(requests[0])), requests[1..])
  }

  // ---------------------------------------------------------------- the exported functions

  /** The hits on a key in its current window. */
  ghost function Used(counters: Counters, key: string, now: int): nat {
    if key in counters && now < counters[key].expiresAt then counters[key].count else 0
  }

  /** One more hit on this key alone: in its window, or opening one. */
  ghost predicate Counted(before: Counters, after: Counters, key: string, windowMs: int, now: int) {
    && after.Keys == before.Keys + {key}
    && (forall other :: other in before && other != key ==> after[other] == before[other])
    && after[key].count == Used(before, key, now) + 1
    && after[key].expiresAt == if Used(before, key, now) > 0 then before[key].expiresAt else now + windowMs
  }

  class CredentialLimiter {
    var counters: Counters

    constructor ()
      ensures counters == map[]
    {
      counters := map[];
    }

    /** RATE_LIMIT_LUA */
    method Eval(key: string, windowMs: int, now: int) returns (count: nat)
      modifies this
      ensures counters == old(counters)[key := Hit(Lookup(old(counters), key), windowMs, now)]
      ensures Counted(old(counters), counters, key, windowMs, now) && count == Used(old(counters), key, now) + 1
    {
      count := 1;
      var expiresAt := now + windowMs;
      if key in counters && now < counters[key].expiresAt && counters[key].count > 0 {
        count := counters[key].count + 1;
        expiresAt := counters[key].expiresAt;
      }
      counters := counters[key := Counter(count, expiresAt)];
    }

    method BeforeCredentialCheck(endpoint: Endpoint, clientId: string, subject: string, now: int)
      returns (admitted: bool)
      requires IsSubject(subject)
      modifies this
      ensures counters == After(old(counters), BeforeCheck(Request(endpoint, clientId, subject, now)))
      ensures Counted(old(counters), counters, SourceKey(endpoint, subject), 300_000, now)
      ensures admitted <==> && Used(old(counters), SourceKey(endpoint, subject), now) < 120
                            && Used(old(counters), FailureKey(endpoint, clientId, subject), now) < 10
      ensures admitted <==> Admitted(old(counters), Request(endpoint, clientId, subject, now))
    {
      KeysAreDistinct(endpoint, "", subject, endpoint, clientId, subject);
      var count := Eval(SourceKey(endpoint, subject), WINDOW_MS, now);
      if count > PER_SOURCE { return false; }
      var failures := CountAt(Lookup(counters, FailureKey(endpoint, clientId, subject)), now);
      admitted := failures < FAILURES_PER_CLIENT_AND_SOURCE;
    }

    method RecordCredentialFailure(endpoint: Endpoint, clientId: string, subject: string, now: int)
      modifies this
      ensures Counted(old(counters), counters, FailureKey(endpoint, clientId, subject), 300_000, now)
      ensures counters == After(old(counters), WrongCredential(Request(endpoint, clientId, subject, now)))
    {
      var _ := Eval(FailureKey(endpoint, clientId, subject), WINDOW_MS, now);
    }
  }
}
