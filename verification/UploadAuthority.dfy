/**
 Single-use delegation and upload capabilities: server/src/auth/action-proof.ts,
 composite-delegation-store.ts, composite-upload-store.ts and composite-upload-record.ts.

 GETDEL and SET are atomic steps, a key is gone from its expiry on, tokens and receipts are fresh
 random strings, and SHA-256 of a record's JSON is a free constructor. Fields that none of this code looks at are one
 opaque `rest`.
 */
module UploadAuthority {
  import opened Wrappers
  import opened Arithmetic
  import opened RedisKeys
  import opened Text

  const ACTION_AUTH_TTL_MS := 300_000
  const DELEGATION_TTL_MS := 30_000
  const MAX_UPLOAD_BYTES := 2 * 1024 * 1024 * 1024
  const MAX_UPLOAD_SECONDS := 300

  // ---------------------------------------------------------------- records

  datatype Reference = Reference(projectKey: string, audience: string, credentialGeneration: nat)

  datatype Source = Source(reference: Reference, sessionBinding: string, userId: string, expiresAt: int, rest: string)

  datatype Risk = Read | SensitiveRead | Important

  datatype Delegation = Delegation(source: Source, target: Reference, consentRevision: string, operation: string,
                                   risk: Risk, issuedAt: int, expiresAt: int)

  datatype Limits = Limits(maximumBytes: int, timeoutSeconds: int)

  datatype Arrival = Arrival(delegation: Delegation, byteLength: int, limits: Limits)

  datatype Reservation = Reservation(arrival: Arrival, requestBinding: string, begunAt: int, deadline: int,
      limits: Limits)

  datatype Target = Target(reference: Reference, requestBinding: string)

  /** uploadLimitsSchema */
  predicate ValidLimits(limits: Limits) {
    1 <= limits.maximumBytes <= MAX_UPLOAD_BYTES && 1 <= limits.timeoutSeconds <= MAX_UPLOAD_SECONDS
  }

  /** uploadArrivalSchema with its refinement */
  predicate ArrivalSchema(arrival: Arrival) {
    var delegation := arrival.delegation;
    && delegation.source.expiresAt > 0 && delegation.issuedAt > 0 && delegation.expiresAt > 0
    && 1 <= arrival.byteLength <= MAX_UPLOAD_BYTES && ValidLimits(arrival.limits)
    && delegation.risk.Important? && arrival.byteLength <= arrival.limits.maximumBytes
    && delegation.expiresAt <= delegation.issuedAt + DELEGATION_TTL_MS
    && delegation.expiresAt <= delegation.source.expiresAt
  }

  /** uploadReservationSchema with its refinement */
  predicate ReservationSchema(r: Reservation) {
    && ArrivalSchema(r.arrival) && IsOpaque(r.requestBinding) && r.begunAt > 0 && r.deadline > 0
    && ValidLimits(r.limits)
    && r.arrival.delegation.issuedAt <= r.begunAt < r.arrival.delegation.expiresAt
    && r.limits.maximumBytes <= r.arrival.limits.maximumBytes
    && r.limits.timeoutSeconds <= r.arrival.limits.timeoutSeconds
    && r.arrival.byteLength <= r.limits.maximumBytes && r.begunAt < r.deadline
    && r.deadline <= r.begunAt + r.limits.timeoutSeconds * 1000 && r.deadline <= r.arrival.delegation.source.expiresAt
  }

  /** CompositeDelegationStore.validate */
  predicate ValidDelegation(record: Delegation, now: int) {
    && record.source.expiresAt > 0 && record.issuedAt > 0 && record.expiresAt > 0
    && record.issuedAt <= now < record.expiresAt
    && record.expiresAt <= record.issuedAt + DELEGATION_TTL_MS && record.expiresAt <= record.source.expiresAt
  }

  /** CompositeUploadStore.validArrival */
  predicate ValidArrival(arrival: Arrival, now: int) {
    && ArrivalSchema(arrival)
    && arrival.delegation.issuedAt <= now < arrival.delegation.expiresAt
    && now < arrival.delegation.source.expiresAt
  }

  predicate MatchesTarget(arrival: Arrival, target: Target) {
    arrival.delegation.target == target.reference && IsOpaque(target.requestBinding)
  }

  function NarrowedLimits(a: Limits, b: Limits): Limits {
    Limits(Min(a.maximumBytes, b.maximumBytes), Min(a.timeoutSeconds, b.timeoutSeconds))
  }

  function ReservationFor(arrival: Arrival, target: Target, route: Limits, begunAt: int): Reservation {
    var limits := NarrowedLimits(arrival.limits, route);
    Reservation(arrival, target.requestBinding, begunAt,
                Min(arrival.delegation.source.expiresAt, begunAt + limits.timeoutSeconds * 1000), limits)
  }

  /** Math.ceil of a difference in milliseconds, in seconds. */
  function CeilSeconds(ms: int): int {
    -((-ms) / 1000)
  }

  // ---------------------------------------------------------------- Redis

  datatype Resource =
    ArrivalDigest(arrival: Arrival) | DelegationDigest(record: Delegation) | OtherResource(text: string)

  datatype Binding =
    | UploadBinding(source: string, session: string, target: string)
    | DelegationBinding(source: string, session: string, target: string)
    | OtherBinding(text: string)

  datatype Expectation = Expectation(userId: string, binding: Binding, action: string, resource: Resource)

  function ArrivalExpectation(arrival: Arrival): Expectation {
    var d := arrival.delegation;
    Expectation(d.source.userId,
                UploadBinding(d.source.reference.projectKey, d.source.sessionBinding, d.target.projectKey),
                "service.operation", ArrivalDigest(arrival))
  }

  function DelegationExpectation(d: Delegation): Expectation {
    Expectation(d.source.userId,
                DelegationBinding(d.source.reference.projectKey, d.source.sessionBinding, d.target.projectKey),
                "service.operation", DelegationDigest(d))
  }

  datatype Redis = Redis(
    proofs: map<string, Entry<Expectation>>,
    arrivals: map<string, Entry<Arrival>>,
    delegations: map<string, Entry<Delegation>>,
    reservations: map<string, Entry<Reservation>>)

  // ---------------------------------------------------------------- the operations

  /** A token that authorised something: when its record was validated, and when the GETDEL authorised it. */
  datatype Grant = Grant(token: string, resource: Resource, checkedAt: int, at: int)

  /** A receipt that was spent. */
  datatype Spending = Spending(receipt: string, reservation: Reservation, target: Target, at: int)

  /** What a token was issued for, and when its proof was written. */
  datatype Issuance = Issuance(expectation: Expectation, at: int)

  /** `issued`, `reserved`, `grants` and `spendings` are the history that the properties speak about. */
  datatype State = State(
    redis: Redis,
    issued: map<string, Issuance>,
    reserved: map<string, Reservation>,
    grants: seq<Grant>,
    spendings: seq<Spending>)

  /**
   The instants of one `begin`, in order: the checks, the beginning of the reservation, the GETDEL, the clock that its
   lifetime is computed from, and the SET; and whether that write succeeds.
   */
  datatype BeginClocks = BeginClocks(checked: int, begun: int, consumed: int, stored: int, written: int,
                                     persisted: bool)

  /** `now` is the check, `proved` the SET of the proof, `stored` the clock of a lifetime and `written` its SET. */
  datatype Step =
    | IssueProof(token: string, expectation: Expectation, proved: int)
    | IssueArrival(token: string, arrival: Arrival, now: int, proved: int, stored: int, written: int)
    | IssueDelegation(token: string, record: Delegation, now: int, proved: int, written: int)
    | ConsumeDelegation(token: string, record: Delegation, checked: int, now: int)
    | Begin(token: string, arrival: Arrival, target: Target, route: Limits, receipt: string, clocks: BeginClocks)
    | Spend(receipt: string, target: Target, now: int)

  function WithProof(st: State, token: string, expectation: Expectation, proved: int): State {
    st.(redis := st.redis.(proofs := st.redis.proofs[token := Entry(expectation, proved + ACTION_AUTH_TTL_MS)]),
        issued := st.issued[token := Issuance(expectation, proved)])
  }

  /** ActionProofStore.consume: GETDEL, and only then the comparison. */
  predicate ProofMatches(redis: Redis, token: string, expectation: Expectation, now: int) {
    32 <= |token| <= 512 && Get(redis.proofs, token, now) == Some(expectation)
  }

  function ProofTaken(redis: Redis, token: string): Redis {
    if 32 <= |token| <= 512 then redis.(proofs := redis.proofs - {token}) else redis
  }

  /** What `begin` requires before it touches the proof. */
  predicate BeginReachesProof(arrival: Arrival, target: Target, route: Limits, clocks: BeginClocks) {
    && ValidArrival(arrival, clocks.checked) && MatchesTarget(arrival, target) && ValidLimits(route)
    && ReservationSchema(ReservationFor(arrival, target, route, clocks.begun))
  }

  function TakeProof(st: State, token: string): State {
    st.(redis := ProofTaken(st.redis, token))
  }

  function AddGrant(st: State, grant: Grant): State {
    st.(grants := st.grants + [grant])
  }

  function Reserve(st: State, receipt: string, reservation: Reservation, expiresAt: int): State {
    st.(redis := st.redis.(reservations := st.redis.reservations[receipt := Entry(reservation, expiresAt)]),
        reserved := st.reserved[receipt := reservation])
  }

  /** A grant to an arrival, with the reservation that is about to be made for it. */
  function GrantedTo(st: State, token: string, reservation: Reservation, consumed: int): State {
    AddGrant(TakeProof(st, token), Grant(token, ArrivalDigest(reservation.arrival), reservation.begunAt, consumed))
  }

  predicate ArrivalMatches(st: State, token: string, reservation: Reservation, consumed: int) {
    ProofMatches(st.redis, token, ArrivalExpectation(reservation.arrival), consumed)
  }

  /** `begin` from the GETDEL of the proof on. */
  function Claimed(st: State, token: string, reservation: Reservation, receipt: string, clocks: BeginClocks): State {
    if !ArrivalMatches(st, token, reservation, clocks.consumed) then TakeProof(st, token) else
    var granted := GrantedTo(st, token, reservation, clocks.consumed);
    var ttl := CeilSeconds(reservation.deadline - clocks.stored);
    if ttl < 1 || !clocks.persisted || receipt in st.reserved then granted
    else Reserve(granted, receipt, reservation, clocks.written + 1000 * ttl)
  }

  function Begun(st: State, token: string, arrival: Arrival, target: Target, route: Limits, receipt: string,
      clocks: BeginClocks): State {
    if BeginReachesProof(arrival, target, route, clocks) then
      Claimed(st, token, ReservationFor(arrival, target, route, clocks.begun), receipt, clocks)
    else
      st
  }

  /** The checks of `consume` after its GETDEL. */
  predicate Spendable(redis: Redis, receipt: string, target: Target, now: int) {
    && IsOpaque(receipt)
    && var raw := Get(redis.reservations, receipt, now);
    && raw.Some? && ReservationSchema(raw.value)
    && raw.value.begunAt <= now < raw.value.deadline && now < raw.value.arrival.delegation.source.expiresAt
    && raw.value.requestBinding == target.requestBinding && MatchesTarget(raw.value.arrival, target)
  }

  function TakeReceipt(st: State, receipt: string): State {
    st.(redis := st.redis.(reservations := st.redis.reservations - {receipt}))
  }

  function Spent(st: State, receipt: string, target: Target, now: int): State {
    if !IsOpaque(receipt) then st else
    if !Spendable(st.redis, receipt, target, now) then TakeReceipt(st, receipt) else
    TakeReceipt(st, receipt).(spendings :=
      st.spendings + [Spending(receipt, st.redis.reservations[receipt].value, target, now)])
  }

  function Next(st: State, step: Step): State {
    match step
    case IssueProof(token, expectation, proved) =>
      if token in st.issued then st else WithProof(st, token, expectation, proved)
    case IssueArrival(token, arrival, now, proved, stored, written) =>
      if token in st.issued || !ValidArrival(arrival, now) then st else
      var ttl := CeilSeconds(arrival.delegation.expiresAt - stored);
      var next := WithProof(st, token, ArrivalExpectation(arrival), proved);
      if ttl < 1 then next else
      next.(redis := next.redis.(arrivals := st.redis.arrivals[token := Entry(arrival, written + 1000 * ttl)]))
    case IssueDelegation(token, record, now, proved, written) =>
      if token in st.issued || !ValidDelegation(record, now) then st else
      var next := WithProof(st, token, DelegationExpectation(record), proved);
      var entry := Entry(record, written + DELEGATION_TTL_MS);
      next.(redis := next.redis.(delegations := st.redis.delegations[token := entry]))
    case ConsumeDelegation(token, record, checked, now) =>
      if !ValidDelegation(record, checked) then st else
      if ProofMatches(st.redis, token, DelegationExpectation(record), now) then
        AddGrant(TakeProof(st, token), Grant(token, DelegationDigest(record), checked, now))
      else
        TakeProof(st, token)
    case Begin(token, arrival, target, route, receipt, clocks) =>
      Begun(st, token, arrival, target, route, receipt, clocks)
    case Spend(receipt, target, now) => Spent(st, receipt, target, now)
  }

  function Run(st: State, trace: seq<Step>): State
    decreases |trace|
  {
    if trace == [] then st else
    var n := |trace| - 1;
    Next(Run(st, trace[..n]), trace[n])
  }

  const Empty := State(Redis(map[], map[], map[], map[]), map[], map[], [], [])

  // ---------------------------------------------------------------- what every run keeps

  /** Tokens: live proofs are as issued; grants are good, and each token granted once. */
  ghost predicate TokenInvariant(st: State) {
    && (forall t :: t in st.redis.proofs ==>
          && t in st.issued
          && st.redis.proofs[t] == Entry(st.issued[t].expectation, st.issued[t].at + ACTION_AUTH_TTL_MS))
    && (forall i :: 0 <= i < |st.grants| ==> GoodGrant(st, st.grants[i]))
    && (forall i, j :: 0 <= i < j < |st.grants| ==> st.grants[i].token != st.grants[j].token)
  }

  /** Receipts: live reservations are as made; spendings are good, and each receipt spent once. */
  ghost predicate ReceiptInvariant(st: State) {
    && (forall r :: r in st.redis.reservations ==> r in st.reserved && st.redis.reservations[r].value == st.reserved[r])
    && (forall r :: r in st.reserved ==> ReservationSchema(st.reserved[r]) && Granted(st.grants, st.reserved[r]))
    && (forall i :: 0 <= i < |st.spendings| ==> GoodSpending(st, st.spendings[i]))
    && (forall i, j :: 0 <= i < j < |st.spendings| ==> st.spendings[i].receipt != st.spendings[j].receipt)
  }

  ghost predicate Invariant(st: State) {
    TokenInvariant(st) && ReceiptInvariant(st)
  }

  /** A reservation stems from a grant of its arrival, validated at the instant it was begun. */
  ghost predicate Granted(grants: seq<Grant>, reservation: Reservation) {
    exists i ::
      && 0 <= i < |grants|
      && grants[i].resource == ArrivalDigest(reservation.arrival) && grants[i].checkedAt == reservation.begunAt
  }

  /** The span in which a record may be used. */
  ghost predicate ValidAt(resource: Resource, t: int) {
    match resource
    case ArrivalDigest(arrival) => arrival.delegation.issuedAt <= t < arrival.delegation.expiresAt
    case DelegationDigest(record) => record.issuedAt <= t < record.expiresAt
    case OtherResource(_) => false
  }

  /**
   A grant is for the record its token was issued for, validated while that record was valid and given before the proof
   had expired, and its proof is gone.
   */
  ghost predicate GoodGrant(st: State, grant: Grant) {
    && grant.token in st.issued && grant.token !in st.redis.proofs
    && grant.resource == st.issued[grant.token].expectation.resource
    && ValidAt(grant.resource, grant.checkedAt)
    && grant.at < st.issued[grant.token].at + ACTION_AUTH_TTL_MS
  }

  /** A spending is of the reservation made under its receipt, for the same request and target, before its deadline. */
  ghost predicate GoodSpending(st: State, spending: Spending) {
    && spending.receipt in st.reserved && spending.receipt !in st.redis.reservations
    && spending.reservation == st.reserved[spending.receipt]
    && spending.reservation.begunAt <= spending.at < spending.reservation.deadline
    && spending.target == Target(spending.reservation.arrival.delegation.target, spending.reservation.requestBinding)
  }

  lemma GrantedStays(grants: seq<Grant>, grant: Grant, reservation: Reservation)
    ensures Granted(grants, reservation) ==> Granted(grants + [grant], reservation)
    ensures grant.resource == ArrivalDigest(reservation.arrival) && grant.checkedAt == reservation.begunAt ==>
      Granted(grants + [grant], reservation)
  {
    if Granted(grants, reservation) {
      var i :| 0 <= i < |grants| && grants[i].resource == ArrivalDigest(reservation.arrival)
               && grants[i].checkedAt == reservation.begunAt;
      assert (grants + [grant])[i] == grants[i];
    }
    assert (grants + [grant])[|grants|] == grant;
  }

  lemma TakingKeepsInvariant(st: State, token: string)
    requires Invariant(st)
    ensures Invariant(TakeProof(st, token))
    ensures 32 <= |token| <= 512 ==> token !in TakeProof(st, token).redis.proofs
  {
    var next := TakeProof(st, token);
    assert forall i :: 0 <= i < |st.grants| ==> GoodGrant(st, st.grants[i]);
    assert forall i :: 0 <= i < |st.spendings| ==>
      GoodSpending(st, st.spendings[i]) && GoodSpending(next, st.spendings[i]);
  }

  lemma GrantingKeepsInvariant(st: State, grant: Grant)
    requires Invariant(st) && GoodGrant(st, grant)
    requires forall i :: 0 <= i < |st.grants| ==> st.grants[i].token != grant.token
    ensures Invariant(AddGrant(st, grant))
  {
    var next := AddGrant(st, grant);
    forall i | 0 <= i < |next.grants| ensures GoodGrant(next, next.grants[i]) {
      if i < |st.grants| { assert GoodGrant(st, st.grants[i]); }
    }
    forall r | r in next.reserved ensures Granted(next.grants, next.reserved[r]) {
      GrantedStays(st.grants, grant, st.reserved[r]);
    }
    assert forall i :: 0 <= i < |st.spendings| ==>
      GoodSpending(st, st.spendings[i]) && GoodSpending(next, st.spendings[i]);
  }

  lemma ReservingKeepsInvariant(st: State, receipt: string, reservation: Reservation, expiresAt: int)
    requires Invariant(st) && receipt !in st.reserved
    requires ReservationSchema(reservation) && Granted(st.grants, reservation)
    ensures Invariant(Reserve(st, receipt, reservation, expiresAt))
  {
    var next := Reserve(st, receipt, reservation, expiresAt);
    assert forall i :: 0 <= i < |st.grants| ==> GoodGrant(st, st.grants[i]) && GoodGrant(next, st.grants[i]);
    assert forall i :: 0 <= i < |st.spendings| ==>
      GoodSpending(st, st.spendings[i]) && GoodSpending(next, st.spendings[i]);
  }

  /** A live proof has granted nothing yet. */
  lemma LiveProofIsUnused(st: State, token: string)
    requires TokenInvariant(st) && token in st.redis.proofs
    ensures forall i :: 0 <= i < |st.grants| ==> st.grants[i].token != token
  {
    assert forall i :: 0 <= i < |st.grants| ==> GoodGrant(st, st.grants[i]);
  }

  lemma ArrivalGrantKeepsInvariant(st: State, token: string, reservation: Reservation, clocks: BeginClocks)
    requires Invariant(st) && ReservationSchema(reservation)
    requires ArrivalMatches(st, token, reservation, clocks.consumed)
    ensures
      var next := GrantedTo(st, token, reservation, clocks.consumed);
      Invariant(next) && Granted(next.grants, reservation)
  {
    var grant := Grant(token, ArrivalDigest(reservation.arrival), reservation.begunAt, clocks.consumed);
    TakingKeepsInvariant(st, token);
    LiveProofIsUnused(st, token);
    GrantingKeepsInvariant(TakeProof(st, token), grant);
    GrantedStays(st.grants, grant, reservation);
  }

  /** The three ends of a claim: refused, granted but not stored, or reserved. */
  ghost predicate ClaimEnds(st: State, granted: State, next: State, matches: bool, token: string, receipt: string,
      reservation: Reservation) {
    if !matches then next == TakeProof(st, token)
    else next == granted
         || (&& receipt !in granted.reserved
             && exists expiresAt :: next == Reserve(granted, receipt, reservation, expiresAt))
  }

  lemma ClaimEnding(st: State, token: string, reservation: Reservation, receipt: string, clocks: BeginClocks)
    ensures ClaimEnds(st, GrantedTo(st, token, reservation, clocks.consumed),
                      Claimed(st, token, reservation, receipt, clocks),
                      ArrivalMatches(st, token, reservation, clocks.consumed), token, receipt, reservation)
  {
  }

  lemma ClaimedKeepsInvariant(st: State, token: string, reservation: Reservation, receipt: string, clocks: BeginClocks)
    requires Invariant(st) && ReservationSchema(reservation)
    ensures Invariant(Claimed(st, token, reservation, receipt, clocks))
  {
    var granted := GrantedTo(st, token, reservation, clocks.consumed);
    var next := Claimed(st, token, reservation, receipt, clocks);
    ClaimEnding(st, token, reservation, receipt, clocks);
    if !ArrivalMatches(st, token, reservation, clocks.consumed) {
      TakingKeepsInvariant(st, token);
    } else {
      ArrivalGrantKeepsInvariant(st, token, reservation, clocks);
      if next != granted {
        var expiresAt :| next == Reserve(granted, receipt, reservation, expiresAt);
        ReservingKeepsInvariant(granted, receipt, reservation, expiresAt);
      }
    }
  }

  lemma BegunKeepsInvariant(st: State, token: string, arrival: Arrival, target: Target, route: Limits,
      receipt: string, clocks: BeginClocks)
    requires Invariant(st)
    ensures Invariant(Begun(st, token, arrival, target, route, receipt, clocks))
  {
    if BeginReachesProof(arrival, target, route, clocks) {
      ClaimedKeepsInvariant(st, token, ReservationFor(arrival, target, route, clocks.begun), receipt, clocks);
    }
  }

  lemma DelegationConsumeKeepsInvariant(st: State, token: string, record: Delegation, checked: int, now: int)
    requires Invariant(st)
    ensures Invariant(Next(st, ConsumeDelegation(token, record, checked, now)))
  {
    TakingKeepsInvariant(st, token);
    if ValidDelegation(record, checked) && ProofMatches(st.redis, token, DelegationExpectation(record), now) {
      LiveProofIsUnused(st, token);
      GrantingKeepsInvariant(TakeProof(st, token), Grant(token, DelegationDigest(record), checked, now));
    }
  }

  lemma TakingReceiptKeepsInvariant(st: State, receipt: string)
    requires Invariant(st)
    ensures Invariant(TakeReceipt(st, receipt))
  {
    var next := TakeReceipt(st, receipt);
    assert forall i :: 0 <= i < |st.grants| ==> GoodGrant(st, st.grants[i]) && GoodGrant(next, st.grants[i]);
    assert forall i :: 0 <= i < |st.spendings| ==>
      GoodSpending(st, st.spendings[i]) && GoodSpending(next, st.spendings[i]);
  }

  lemma AddingSpendingKeepsInvariant(st: State, spending: Spending)
    requires Invariant(st) && GoodSpending(st, spending)
    requires forall i :: 0 <= i < |st.spendings| ==> st.spendings[i].receipt != spending.receipt
    ensures Invariant(st.(spendings := st.spendings + [spending]))
  {
    var next := st.(spendings := st.spendings + [spending]);
    assert forall i :: 0 <= i < |st.grants| ==> GoodGrant(st, st.grants[i]) && GoodGrant(next, st.grants[i]);
    forall i | 0 <= i < |next.spendings| ensures GoodSpending(next, next.spendings[i]) {
      if i < |st.spendings| { assert GoodSpending(st, st.spendings[i]); } else { assert GoodSpending(st, spending); }
    }
  }

  lemma SpentKeepsInvariant(st: State, receipt: string, target: Target, now: int)
    requires Invariant(st)
    ensures Invariant(Spent(st, receipt, target, now))
  {
    TakingReceiptKeepsInvariant(st, receipt);
    if IsOpaque(receipt) && Spendable(st.redis, receipt, target, now) {
      assert forall i :: 0 <= i < |st.spendings| ==> GoodSpending(st, st.spendings[i]);
      AddingSpendingKeepsInvariant(TakeReceipt(st, receipt),
                                   Spending(receipt, st.redis.reservations[receipt].value, target, now));
    }
  }

  lemma NewProofKeepsInvariant(st: State, token: string, expectation: Expectation, proved: int)
    requires Invariant(st) && token !in st.issued
    ensures Invariant(WithProof(st, token, expectation, proved))
  {
    var next := WithProof(st, token, expectation, proved);
    assert forall i :: 0 <= i < |st.grants| ==> GoodGrant(st, st.grants[i]) && GoodGrant(next, st.grants[i]);
    assert forall i :: 0 <= i < |st.spendings| ==>
      GoodSpending(st, st.spendings[i]) && GoodSpending(next, st.spendings[i]);
  }

  /** The records beside the proofs authorise nothing. */
  lemma RecordsDoNotMatter(st: State, next: State)
    requires Invariant(st)
    requires next == st.(redis := st.redis.(arrivals := next.redis.arrivals, delegations := next.redis.delegations))
    ensures Invariant(next)
  {
    assert forall i :: 0 <= i < |st.grants| ==> GoodGrant(st, st.grants[i]) && GoodGrant(next, st.grants[i]);
    assert forall i :: 0 <= i < |st.spendings| ==>
      GoodSpending(st, st.spendings[i]) && GoodSpending(next, st.spendings[i]);
  }

  lemma IssuingKeepsInvariant(st: State, step: Step)
    requires Invariant(st) && (step.IssueProof? || step.IssueArrival? || step.IssueDelegation?)
    ensures Invariant(Next(st, step))
  {
    var next := Next(st, step);
    if next != st {
      var expectation := next.issued[step.token].expectation;
      NewProofKeepsInvariant(st, step.token, expectation, step.proved);
      RecordsDoNotMatter(WithProof(st, step.token, expectation, step.proved), next);
    }
  }

  lemma NextKeepsInvariant(st: State, step: Step)
    requires Invariant(st)
    ensures Invariant(Next(st, step))
  {
    match step
    case ConsumeDelegation(token, record, checked, now) =>
      DelegationConsumeKeepsInvariant(st, token, record, checked, now);
    case Begin(token, arrival, target, route, receipt, clocks) =>
      BegunKeepsInvariant(st, token, arrival, target, route, receipt, clocks);
    case Spend(receipt, target, now) => SpentKeepsInvariant(st, receipt, target, now);
    case _ => IssuingKeepsInvariant(st, step);
  }

  lemma {:induction false} RunKeepsInvariant(trace: seq<Step>)
    ensures Invariant(Run(Empty, trace))
    decreases |trace|
  {
    if trace != [] {
      RunKeepsInvariant(trace[..|trace| - 1]);
      NextKeepsInvariant(Run(Empty, trace[..|trace| - 1]), trace[|trace| - 1]);
    }
  }

  /**
   Every run: a token authorises at most one success, for exactly the record it was issued for, and that record was
   validated while it was valid.
   */
  lemma TokensAreSingleUse(trace: seq<Step>, i: nat)
    requires i < |Run(Empty, trace).grants|
    ensures
      var st := Run(Empty, trace);
      && GoodGrant(st, st.grants[i])
      && forall j :: 0 <= j < |st.grants| && j != i ==> st.grants[j].token != st.grants[i].token
  {
    RunKeepsInvariant(trace);
  }

  /**
   The GETDEL that authorises comes after the validation, and may come after the record's end, but less than five
   minutes after the proof was written. With a clock that does not step back in between, the grant itself lies in the
   record's validity exactly when the GETDEL comes before the record's end.
   */
  lemma {:induction false} GrantIsInTimeExactly(trace: seq<Step>, i: nat)
    requires i < |Run(Empty, trace).grants|
    ensures
      var st := Run(Empty, trace);
      var grant := st.grants[i];
      && grant.token in st.issued && grant.at < st.issued[grant.token].at + ACTION_AUTH_TTL_MS
      && (grant.checkedAt <= grant.at ==>
            (ValidAt(grant.resource, grant.at) <==>
               match grant.resource
               case ArrivalDigest(arrival) => grant.at < arrival.delegation.expiresAt
               case DelegationDigest(record) => grant.at < record.expiresAt
               case OtherResource(_) => false))
  {
    TokensAreSingleUse(trace, i);
  }

  lemma RunOfTwo(st: State, first: Step, second: Step)
    ensures Run(st, [first, second]) == Next(Next(st, first), second)
  {
    assert [first, second][..1] == [first];
    assert Run(st, [first]) == Next(Run(st, []), first) by { assert [first][..0] == []; }
  }

  /** At any instant until the proof expires, a delayed GETDEL still grants, and the reservation is made. */
  lemma LateGrant(token: string, arrival: Arrival, target: Target, route: Limits, receipt: string, late: int)
    requires IsOpaque(token) && ArrivalSchema(arrival) && MatchesTarget(arrival, target) && ValidLimits(route)
    requires arrival.byteLength <= route.maximumBytes
    requires arrival.delegation.issuedAt < arrival.delegation.expiresAt <= late
    requires late < arrival.delegation.issuedAt + ACTION_AUTH_TTL_MS
    requires late < ReservationFor(arrival, target, route, arrival.delegation.issuedAt).deadline
    ensures
      var start := arrival.delegation.issuedAt;
      var clocks := BeginClocks(start, start, late, late, late, true);
      var last := Run(Empty, [IssueArrival(token, arrival, start, start, start, start),
                              Begin(token, arrival, target, route, receipt, clocks)]);
      && last.grants == [Grant(token, ArrivalDigest(arrival), start, late)]
      && !ValidAt(last.grants[0].resource, last.grants[0].at)
      && receipt in last.reserved
  {
    var start := arrival.delegation.issuedAt;
    var issue := IssueArrival(token, arrival, start, start, start, start);
    var issued := Next(Empty, issue);
    RunOfTwo(Empty, issue,
             Begin(token, arrival, target, route, receipt, BeginClocks(start, start, late, late, late, true)));
    assert Get(issued.redis.proofs, token, late) == Some(ArrivalExpectation(arrival));
    var reservation := ReservationFor(arrival, target, route, start);
    assert ReservationSchema(reservation);
    CeilSecondsBounds(reservation.deadline - late);
  }

  /**
   Every run: a receipt is spent by at most one finalize or cancel, for the reservation made under it and before its
   deadline.
   */
  lemma ReceiptsAreSingleUse(trace: seq<Step>, i: nat)
    requires i < |Run(Empty, trace).spendings|
    ensures
      var st := Run(Empty, trace);
      && GoodSpending(st, st.spendings[i])
      && ReservationSchema(st.spendings[i].reservation) && Granted(st.grants, st.spendings[i].reservation)
      && forall j :: 0 <= j < |st.spendings| && j != i ==> st.spendings[j].receipt != st.spendings[i].receipt
  {
    RunKeepsInvariant(trace);
  }

  // ---------------------------------------------------------------- a failed attempt burns its capability

  /** Every attempt that passes its own checks reaches the GETDEL, and the token is dead from then on. */
  ghost predicate ReachesProof(step: Step, token: string) {
    || (step.ConsumeDelegation? && step.token == token && ValidDelegation(step.record, step.checked))
    || (step.Begin? && step.token == token && BeginReachesProof(step.arrival, step.target, step.route, step.clocks))
  }

  lemma ReachingProofBurnsIt(st: State, step: Step, token: string)
    requires token in st.issued && 32 <= |token| <= 512 && ReachesProof(step, token)
    ensures token in Next(st, step).issued && token !in Next(st, step).redis.proofs
  {
  }

  /** The step grants nothing to the token: it adds no grant, or one for another token. */
  ghost predicate GrantsElsewhere(st: State, next: State, token: string) {
    || next.grants == st.grants
    || (|next.grants| == |st.grants| + 1 && next.grants[..|st.grants|] == st.grants
        && next.grants[|st.grants|].token != token)
  }

  lemma BurnedThroughBegin(st: State, step: Step, token: string)
    requires token in st.issued && token !in st.redis.proofs && step.Begin?
    ensures token in Next(st, step).issued && token !in Next(st, step).redis.proofs
    ensures GrantsElsewhere(st, Next(st, step), token)
  {
  }

  lemma BurnedThroughSpend(st: State, step: Step, token: string)
    requires token in st.issued && token !in st.redis.proofs && step.Spend?
    ensures token in Next(st, step).issued && token !in Next(st, step).redis.proofs
    ensures GrantsElsewhere(st, Next(st, step), token)
  {
  }

  lemma BurnedStaysBurned(st: State, step: Step, token: string)
    requires token in st.issued && token !in st.redis.proofs
    ensures token in Next(st, step).issued && token !in Next(st, step).redis.proofs
    ensures GrantsElsewhere(st, Next(st, step), token)
  {
    if step.Begin? { BurnedThroughBegin(st, step, token); }
    if step.Spend? { BurnedThroughSpend(st, step, token); }
  }

  /** No grant since `start` is for the token. */
  ghost predicate UngrantedSince(start: State, st: State, token: string) {
    |start.grants| <= |st.grants| && forall i :: |start.grants| <= i < |st.grants| ==> st.grants[i].token != token
  }

  lemma StillUngranted(start: State, st: State, next: State, token: string)
    requires UngrantedSince(start, st, token) && GrantsElsewhere(st, next, token)
    ensures UngrantedSince(start, next, token)
  {
    if next.grants != st.grants {
      assert forall i :: 0 <= i < |st.grants| ==> next.grants[i] == next.grants[..|st.grants|][i];
    }
  }

  /** A token whose proof is gone is granted nothing again. */
  lemma {:induction false} BurnedTokenGrantsNothing(st: State, trace: seq<Step>, token: string)
    requires token in st.issued && token !in st.redis.proofs
    ensures token in Run(st, trace).issued && token !in Run(st, trace).redis.proofs
    ensures UngrantedSince(st, Run(st, trace), token)
    decreases |trace|
  {
    if trace != [] {
      var before := Run(st, trace[..|trace| - 1]);
      BurnedTokenGrantsNothing(st, trace[..|trace| - 1], token);
      BurnedStaysBurned(before, trace[|trace| - 1], token);
      StillUngranted(st, before, Run(st, trace), token);
    }
  }

  /** After any attempt that reaches the proof, right or wrong, no later run grants anything to the token. */
  lemma {:induction false} AttemptedTokenGrantsNothing(st: State, step: Step, trace: seq<Step>, token: string)
    requires token in st.issued && 32 <= |token| <= 512 && ReachesProof(step, token)
    ensures
      var tried := Next(st, step);
      var last := Run(tried, trace);
      token in last.issued && token !in last.redis.proofs && UngrantedSince(tried, last, token)
  {
    ReachingProofBurnsIt(st, step, token);
    BurnedTokenGrantsNothing(Next(st, step), trace, token);
  }

  /** The step spends the receipt no further: it adds no spending, or one of another receipt. */
  ghost predicate SpendsElsewhere(st: State, next: State, receipt: string) {
    || next.spendings == st.spendings
    || (|next.spendings| == |st.spendings| + 1 && next.spendings[..|st.spendings|] == st.spendings
        && next.spendings[|st.spendings|].receipt != receipt)
  }

  lemma BurnedReceiptThroughBegin(st: State, step: Step, receipt: string)
    requires receipt in st.reserved && receipt !in st.redis.reservations && step.Begin?
    ensures receipt in Next(st, step).reserved && receipt !in Next(st, step).redis.reservations
    ensures SpendsElsewhere(st, Next(st, step), receipt)
  {
  }

  lemma BurnedReceiptStaysBurned(st: State, step: Step, receipt: string)
    requires receipt in st.reserved && receipt !in st.redis.reservations
    ensures receipt in Next(st, step).reserved && receipt !in Next(st, step).redis.reservations
    ensures SpendsElsewhere(st, Next(st, step), receipt)
  {
    if step.Begin? { BurnedReceiptThroughBegin(st, step, receipt); }
  }

  /** No spending since `start` is of the receipt. */
  ghost predicate UnspentSince(start: State, st: State, receipt: string) {
    && |start.spendings| <= |st.spendings|
    && forall i :: |start.spendings| <= i < |st.spendings| ==> st.spendings[i].receipt != receipt
  }

  lemma StillUnspent(start: State, st: State, next: State, receipt: string)
    requires UnspentSince(start, st, receipt) && SpendsElsewhere(st, next, receipt)
    ensures UnspentSince(start, next, receipt)
  {
    if next.spendings != st.spendings {
      assert forall i :: 0 <= i < |st.spendings| ==> next.spendings[i] == next.spendings[..|st.spendings|][i];
    }
  }

  /** A receipt whose reservation is gone is not spent again. */
  lemma {:induction false} BurnedReceiptSpendsNothing(st: State, trace: seq<Step>, receipt: string)
    requires receipt in st.reserved && receipt !in st.redis.reservations
    ensures receipt in Run(st, trace).reserved && receipt !in Run(st, trace).redis.reservations
    ensures UnspentSince(st, Run(st, trace), receipt)
    decreases |trace|
  {
    if trace != [] {
      var before := Run(st, trace[..|trace| - 1]);
      BurnedReceiptSpendsNothing(st, trace[..|trace| - 1], receipt);
      BurnedReceiptStaysBurned(before, trace[|trace| - 1], receipt);
      StillUnspent(st, before, Run(st, trace), receipt);
    }
  }

  /** After any attempt to spend a receipt, with whatever target and at whatever time, it is never spent again. */
  lemma {:induction false} AttemptedReceiptIsSpentNoMore(st: State, target: Target, now: int, trace: seq<Step>,
      receipt: string)
    requires receipt in st.reserved && IsOpaque(receipt)
    ensures
      var tried := Spent(st, receipt, target, now);
      var last := Run(tried, trace);
      receipt in last.reserved && receipt !in last.redis.reservations && UnspentSince(tried, last, receipt)
  {
    BurnedReceiptSpendsNothing(Spent(st, receipt, target, now), trace, receipt);
  }

  // ---------------------------------------------------------------- bounds only narrow

  /** ceil to whole seconds: never early, never a full second late. */
  lemma CeilSecondsBounds(ms: int)
    ensures ms <= 1000 * CeilSeconds(ms) < ms + 1000
  {
  }

  /**
   Along the chain every bound narrows. From its SET on, the Redis entry lives as long as there was to the deadline when
   the lifetime was computed, and less than a second longer.
   */
  lemma BoundsOnlyNarrow(st: State, token: string, arrival: Arrival, target: Target, route: Limits, receipt: string,
      clocks: BeginClocks)
    requires receipt !in st.reserved && receipt in Begun(st, token, arrival, target, route, receipt, clocks).reserved
    ensures
      var next := Begun(st, token, arrival, target, route, receipt, clocks);
      var r, entry := next.reserved[receipt], next.redis.reservations[receipt];
      && entry.value == r && r.arrival == arrival
      && r.limits.maximumBytes <= arrival.limits.maximumBytes && r.limits.maximumBytes <= route.maximumBytes
      && r.limits.timeoutSeconds <= arrival.limits.timeoutSeconds && r.limits.timeoutSeconds <= route.timeoutSeconds
      && arrival.byteLength <= r.limits.maximumBytes
      && r.begunAt < r.deadline <= arrival.delegation.source.expiresAt
      && r.deadline <= r.begunAt + 1000 * r.limits.timeoutSeconds
      && (r.deadline == arrival.delegation.source.expiresAt || r.deadline == r.begunAt + 1000 * r.limits.timeoutSeconds)
      && r.deadline - clocks.stored <= entry.expiresAt - clocks.written < r.deadline - clocks.stored + 1000
  {
    CeilSecondsBounds(ReservationFor(arrival, target, route, clocks.begun).deadline - clocks.stored);
  }

  // ---------------------------------------------------------------- what each operation demands, field by field

  ghost predicate Base64Url43(text: string) {
    |text| == 43 && forall c :: c in text ==> c in BASE64URL
  }

  /** The span of a delegation: 30 seconds at most, within that of its source. */
  ghost predicate Delegable(d: Delegation, now: int) {
    && 0 < d.issuedAt <= now < d.expiresAt
    && d.expiresAt <= d.issuedAt + 30_000 && d.expiresAt <= d.source.expiresAt
  }

  ghost predicate Arriving(arrival: Arrival, now: int) {
    && Delegable(arrival.delegation, now) && arrival.delegation.risk == Important
    && 1 <= arrival.byteLength <= arrival.limits.maximumBytes <= 2_147_483_648
    && 1 <= arrival.limits.timeoutSeconds <= 300
  }

  /** What may be reserved: a valid arrival, by its own target, that fits the limits of the route. */
  ghost predicate Reservable(arrival: Arrival, target: Target, route: Limits, clocks: BeginClocks) {
    && Arriving(arrival, clocks.checked) && Arriving(arrival, clocks.begun)
    && target.reference == arrival.delegation.target && Base64Url43(target.requestBinding)
    && arrival.byteLength <= route.maximumBytes <= 2_147_483_648 && 1 <= route.timeoutSeconds <= 300
  }

  /** What is reserved: the smaller of both limits, until they or the source end. */
  ghost predicate ReservedFor(r: Reservation, arrival: Arrival, target: Target, route: Limits, begun: int) {
    var bytes, seconds := arrival.limits.maximumBytes, arrival.limits.timeoutSeconds;
    && r.arrival == arrival && r.requestBinding == target.requestBinding && r.begunAt == begun
    && r.limits.maximumBytes == (if bytes <= route.maximumBytes then bytes else route.maximumBytes)
    && r.limits.timeoutSeconds == (if seconds <= route.timeoutSeconds then seconds else route.timeoutSeconds)
    && r.deadline == (if arrival.delegation.source.expiresAt <= begun + 1000 * r.limits.timeoutSeconds
                      then arrival.delegation.source.expiresAt else begun + 1000 * r.limits.timeoutSeconds)
  }

  ghost predicate WellFormed(r: Reservation) {
    && Arriving(r.arrival, r.begunAt) && Base64Url43(r.requestBinding)
    && r.arrival.byteLength <= r.limits.maximumBytes <= r.arrival.limits.maximumBytes
    && 1 <= r.limits.timeoutSeconds <= r.arrival.limits.timeoutSeconds
    && r.begunAt < r.deadline <= r.begunAt + 1000 * r.limits.timeoutSeconds
    && r.deadline <= r.arrival.delegation.source.expiresAt
  }

  /** What a proof of this arrival is for: its upload by its source at its target. */
  ghost predicate ForArrival(e: Expectation, a: Arrival) {
    && e.userId == a.delegation.source.userId && e.action == "service.operation" && e.resource == ArrivalDigest(a)
    && e.binding == UploadBinding(a.delegation.source.reference.projectKey, a.delegation.source.sessionBinding,
                                  a.delegation.target.projectKey)
  }

  ghost predicate ForDelegation(e: Expectation, d: Delegation) {
    && e.userId == d.source.userId && e.action == "service.operation" && e.resource == DelegationDigest(d)
    && e.binding == DelegationBinding(d.source.reference.projectKey, d.source.sessionBinding, d.target.projectKey)
  }

  /** A token of possible length with a live proof. */
  ghost predicate Live(proofs: map<string, Entry<Expectation>>, token: string, now: int) {
    32 <= |token| <= 512 && token in proofs && now < proofs[token].expiresAt
  }

  /** The token has been taken: whatever it proved is gone. */
  ghost predicate Taken(before: map<string, Entry<Expectation>>, after: map<string, Entry<Expectation>>,
      token: string) {
    after == if 32 <= |token| <= 512 then before - {token} else before
  }

  /** What may be spent: a live, well-formed reservation, by the target and for the request it was made for. */
  ghost predicate MaySpend(reservations: map<string, Entry<Reservation>>, receipt: string, target: Target, now: int) {
    && Base64Url43(receipt) && receipt in reservations && now < reservations[receipt].expiresAt
    && var r := reservations[receipt].value;
    && WellFormed(r) && r.begunAt <= now < r.deadline
    && target == Target(r.arrival.delegation.target, r.requestBinding)
  }

  /** Only this key is written, and from its SET on it lives for `left` ms, rounded up to seconds. */
  ghost predicate Stored<V>(before: map<string, Entry<V>>, after: map<string, Entry<V>>, key: string, value: V,
      left: int, written: int) {
    && key in after && after == before[key := after[key]] && after[key].value == value
    && left <= after[key].expiresAt - written < left + 1000 && (after[key].expiresAt - written) % 1000 == 0
  }

  lemma ArrivingExactly(arrival: Arrival, now: int)
    ensures ValidArrival(arrival, now) <==> Arriving(arrival, now)
  {
  }

  lemma WellFormedExactly(r: Reservation)
    ensures ReservationSchema(r) <==> WellFormed(r)
  {
    OpaqueIsBase64Url(r.requestBinding);
  }

  /** `begin` reaches the proof exactly for what may be reserved, and reserves just that. */
  lemma ReservableExactly(arrival: Arrival, target: Target, route: Limits, clocks: BeginClocks)
    ensures BeginReachesProof(arrival, target, route, clocks) <==> Reservable(arrival, target, route, clocks)
    ensures forall r :: ReservedFor(r, arrival, target, route, clocks.begun)
                        <==> r == ReservationFor(arrival, target, route, clocks.begun)
  {
    OpaqueIsBase64Url(target.requestBinding);
  }

  /**
   What one `begin` does. An arrival that may not be reserved touches nothing. Otherwise the token is gone, it is
   granted exactly if its proof was live and for this arrival, and the reservation is made exactly if moreover its
   deadline was still to come and the write succeeded.
   */
  ghost predicate BeginOutcome(before: State, after: State, reservation: Option<Reservation>, token: string,
      arrival: Arrival, target: Target, route: Limits, receipt: string, clocks: BeginClocks) {
    var proofs, spent := before.redis.proofs, Grant(token, ArrivalDigest(arrival), clocks.begun, clocks.consumed);
    var proven := Live(proofs, token, clocks.consumed) && ForArrival(proofs[token].value, arrival);
    if !Reservable(arrival, target, route, clocks) then after == before && reservation.None? else
    && Taken(proofs, after.redis.proofs, token)
    && after.grants == before.grants + (if proven then [spent] else [])
    && after.spendings == before.spendings && after.issued == before.issued
    && after.redis.arrivals == before.redis.arrivals && after.redis.delegations == before.redis.delegations
    && match reservation
       case None =>
         && after.redis.reservations == before.redis.reservations && after.reserved == before.reserved
         && (proven && clocks.persisted ==>
               forall r :: ReservedFor(r, arrival, target, route, clocks.begun) ==> r.deadline <= clocks.stored)
       case Some(r) =>
         && proven && clocks.persisted && clocks.stored < r.deadline
         && ReservedFor(r, arrival, target, route, clocks.begun) && after.reserved == before.reserved[receipt := r]
         && Stored(before.redis.reservations, after.redis.reservations, receipt, r, r.deadline - clocks.stored,
                   clocks.written)
  }

  lemma BegunExactly(st: State, token: string, arrival: Arrival, target: Target, route: Limits, receipt: string,
      clocks: BeginClocks)
    requires receipt !in st.reserved
    ensures
      var next := Begun(st, token, arrival, target, route, receipt, clocks);
      BeginOutcome(st, next, if receipt in next.reserved then Some(next.reserved[receipt]) else None, token, arrival,
                   target, route, receipt, clocks)
  {
    ReservableExactly(arrival, target, route, clocks);
    var reservation := ReservationFor(arrival, target, route, clocks.begun);
    CeilSecondsBounds(reservation.deadline - clocks.stored);
  }

  lemma MaySpendExactly(redis: Redis, receipt: string, target: Target, now: int)
    ensures Spendable(redis, receipt, target, now) <==> MaySpend(redis.reservations, receipt, target, now)
  {
    OpaqueIsBase64Url(receipt);
    OpaqueIsBase64Url(target.requestBinding);
    if receipt in redis.reservations { WellFormedExactly(redis.reservations[receipt].value); }
  }

  // ---------------------------------------------------------------- the stores

  /** ActionProofStore; the ghost field is the history of issued tokens. */
  class ActionProofStore {
    var proofs: map<string, Entry<Expectation>>
    ghost var issued: map<string, Issuance>

    constructor ()
      ensures proofs == map[] && issued == map[]
    {
      proofs, issued := map[], map[];
    }

    method Issue(proof: string, expectation: Expectation, proved: int)
      modifies this
      ensures proofs == old(proofs)[proof := Entry(expectation, proved + ACTION_AUTH_TTL_MS)]
      ensures issued == old(issued)[proof := Issuance(expectation, proved)]
    {
      proofs := proofs[proof := Entry(expectation, proved + ACTION_AUTH_TTL_MS)];
      issued := issued[proof := Issuance(expectation, proved)];
    }

    method Consume(proof: string, expectation: Expectation, now: int) returns (ok: bool)
      modifies this`proofs
      ensures ok <==> 32 <= |proof| <= 512 && Get(old(proofs), proof, now) == Some(expectation)
      ensures proofs == if 32 <= |proof| <= 512 then old(proofs) - {proof} else old(proofs)
    {
      if |proof| < 32 || |proof| > 512 { return false; }
      var raw := Get(proofs, proof, now);
      proofs := proofs - {proof};
      if raw.None? { return false; }
      var record := raw.value;
      ok := record.userId == expectation.userId && record.binding == expectation.binding
            && record.action == expectation.action && record.resource == expectation.resource;
    }
  }

  /** CompositeUploadStore and CompositeDelegationStore over one proof store. */
  class CapabilityStores {
    const proofs: ActionProofStore
    var arrivals: map<string, Entry<Arrival>>
    var delegations: map<string, Entry<Delegation>>
    var reservations: map<string, Entry<Reservation>>
    ghost var reserved: map<string, Reservation>
    ghost var grants: seq<Grant>
    ghost var spendings: seq<Spending>

    constructor (proofs: ActionProofStore)
      requires proofs.proofs == map[] && proofs.issued == map[]
      ensures this.proofs == proofs && Now() == Empty
    {
      this.proofs := proofs;
      arrivals, delegations, reservations := map[], map[], map[];
      reserved, grants, spendings := map[], [], [];
    }

    ghost function Now(): State
      reads this, proofs
    {
      State(Redis(proofs.proofs, arrivals, delegations, reservations), proofs.issued, reserved, grants, spendings)
    }

    method IssueArrival(proof: string, arrival: Arrival, now: int, proved: int, stored: int, written: int)
      returns (ok: bool)
      requires proof !in proofs.issued
      modifies this`arrivals, proofs
      ensures Now() == Next(old(Now()), Step.IssueArrival(proof, arrival, now, proved, stored, written))
      ensures ok <==> Arriving(arrival, now) && stored < arrival.delegation.expiresAt
      ensures if Arriving(arrival, now)
              then && Stored(old(proofs.proofs), proofs.proofs, proof, proofs.proofs[proof].value, 300_000, proved)
                   && ForArrival(proofs.proofs[proof].value, arrival)
              else proofs.proofs == old(proofs.proofs)
      ensures if ok
              then Stored(old(arrivals), arrivals, proof, arrival, arrival.delegation.expiresAt - stored, written)
              else arrivals == old(arrivals)
    {
      ArrivingExactly(arrival, now);
      if !ValidArrival(arrival, now) { return false; }
      proofs.Issue(proof, ArrivalExpectation(arrival), proved);
      var ttl := CeilSeconds(arrival.delegation.expiresAt - stored);
      CeilSecondsBounds(arrival.delegation.expiresAt - stored);
      if ttl < 1 { return false; }
      arrivals := arrivals[proof := Entry(arrival, written + 1000 * ttl)];
      ok := true;
    }

    method Begin(token: string, arrival: Arrival, target: Target, route: Limits, receipt: string, clocks: BeginClocks)
      returns (reservation: Option<Reservation>)
      requires receipt !in reserved
      modifies this`reservations, this`reserved, this`grants, proofs
      ensures Now() == Begun(old(Now()), token, arrival, target, route, receipt, clocks)
      ensures !Reservable(arrival, target, route, clocks) ==> Now() == old(Now())
      ensures reservation == if receipt in reserved then Some(reserved[receipt]) else None
    {
      ReservableExactly(arrival, target, route, clocks);
      if !ValidArrival(arrival, clocks.checked) || !MatchesTarget(arrival, target) || !ValidLimits(route) {
        return None;
      }
      var limits := Limits(Min(arrival.limits.maximumBytes, route.maximumBytes),
                           Min(arrival.limits.timeoutSeconds, route.timeoutSeconds));
      var deadline := Min(arrival.delegation.source.expiresAt, clocks.begun + limits.timeoutSeconds * 1000);
      var candidate := Reservation(arrival, target.requestBinding, clocks.begun, deadline, limits);
      if !ReservationSchema(candidate) { return None; }
      var ok := proofs.Consume(token, ArrivalExpectation(arrival), clocks.consumed);
      if !ok { return None; }
      grants := grants + [Grant(token, ArrivalDigest(arrival), clocks.begun, clocks.consumed)];
      var ttl := CeilSeconds(deadline - clocks.stored);
      if ttl < 1 || !clocks.persisted { return None; }
      reservations := reservations[receipt := Entry(candidate, clocks.written + 1000 * ttl)];
      reserved := reserved[receipt := candidate];
      reservation := Some(candidate);
    }

    /** consume, and cancel, which ignores the result. */
    method Consume(receipt: string, target: Target, now: int) returns (reservation: Option<Reservation>)
      modifies this`reservations, this`spendings
      ensures Now() == Spent(old(Now()), receipt, target, now)
      ensures reservation.Some? <==> MaySpend(old(reservations), receipt, target, now)
      ensures reservation.Some? ==> reservation.value == old(reservations)[receipt].value
      ensures reservations == if Base64Url43(receipt) then old(reservations) - {receipt} else old(reservations)
      ensures reservation.None? ==> spendings == old(spendings)
      ensures reservation.Some? ==> spendings == old(spendings) + [Spending(receipt, reservation.value, target, now)]
    {
      MaySpendExactly(Now().redis, receipt, target, now);
      OpaqueIsBase64Url(receipt);
      if !IsOpaque(receipt) { return None; }
      var raw := Get(reservations, receipt, now);
      reservations := reservations - {receipt};
      if raw.None? { return None; }
      var r := raw.value;
      if !ReservationSchema(r) || r.begunAt > now || r.deadline <= now || r.arrival.delegation.source.expiresAt <= now
         || r.requestBinding != target.requestBinding || !MatchesTarget(r.arrival, target) {
        return None;
      }
      spendings := spendings + [Spending(receipt, r, target, now)];
      reservation := Some(r);
    }

    method IssueDelegation(proof: string, record: Delegation, now: int, proved: int, written: int) returns (ok: bool)
      requires proof !in proofs.issued
      modifies this`delegations, proofs
      ensures Now() == Next(old(Now()), Step.IssueDelegation(proof, record, now, proved, written))
      ensures ok <==> Delegable(record, now)
      ensures if ok
              then && Stored(old(proofs.proofs), proofs.proofs, proof, proofs.proofs[proof].value, 300_000, proved)
                   && ForDelegation(proofs.proofs[proof].value, record)
                   && Stored(old(delegations), delegations, proof, record, 30_000, written)
              else proofs.proofs == old(proofs.proofs) && delegations == old(delegations)
    {
      if !ValidDelegation(record, now) { return false; }
      proofs.Issue(proof, DelegationExpectation(record), proved);
      delegations := delegations[proof := Entry(record, written + DELEGATION_TTL_MS)];
      ok := true;
    }

    method ConsumeDelegation(token: string, record: Delegation, checked: int, now: int) returns (ok: bool)
      modifies this`grants, proofs
      ensures Now() == Next(old(Now()), Step.ConsumeDelegation(token, record, checked, now))
      ensures ok <==> && Delegable(record, checked) && Live(old(proofs.proofs), token, now)
                      && ForDelegation(old(proofs.proofs)[token].value, record)
      ensures grants == old(grants) + if ok then [Grant(token, DelegationDigest(record), checked, now)] else []
      ensures if Delegable(record, checked) then Taken(old(proofs.proofs), proofs.proofs, token)
              else proofs.proofs == old(proofs.proofs)
    {
      if !ValidDelegation(record, checked) { return false; }
      ok := proofs.Consume(token, DelegationExpectation(record), now);
      if ok { grants := grants + [Grant(token, DelegationDigest(record), checked, now)]; }
    }
  }
}
