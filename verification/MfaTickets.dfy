/**
 MFA tickets: server/src/auth/mfa-records.ts, mfa-challenge.ts, mfa-user.ts and the factor change of
 mfa-settings.ts, as the interleaving of concurrent attempts.

 An attempt is four atomic steps: it reads the ticket, is counted, checks its evidence under the lock of the user row,
 and consumes the ticket and writes the row before it releases the lock. A Redis script is one step; a Redis key is
 gone from its expiry on. Hashes are free constructors. All clocks are one clock, which the steps read in order.
 */
module MfaTickets {
  import opened Wrappers
  import opened RedisKeys
  import opened RateLimit
  import opened Totp

  const MFA_TTL_MS := 300_000
  const ATTEMPTS_PER_TICKET := 5
  const ATTEMPTS_PER_USER := 20
  const USER_WINDOW_MS := 900_000
  const ONSITE_POLLS := 300

  // ---------------------------------------------------------------- users

  datatype Factor = TotpMethod | EmailMethod | OnsiteMethod

  function NameOf(factor: Factor): string {
    match factor
    case TotpMethod => "totp"
    case EmailMethod => "email"
    case OnsiteMethod => "onsite"
  }

  datatype User = User(
    passwordHash: Option<string>, email: Option<string>, mfaEnabled: bool, mfaMethods: seq<string>,
    totpEnabled: bool, totpSecret: Option<string>, mfaRevision: nat, totpLastStep: Option<nat>)

  /** mfaSnapshot: the SHA-256 of everything but the TOTP step. */
  datatype Snapshot = Sha256(
    passwordHash: Option<string>, email: Option<string>, mfaEnabled: bool, mfaMethods: seq<string>,
    totpEnabled: bool, totpSecret: Option<string>, mfaRevision: nat)

  function SnapshotOf(user: User): Snapshot {
    Sha256(user.passwordHash, user.email, user.mfaEnabled, user.mfaMethods, user.totpEnabled, user.totpSecret,
           user.mfaRevision)
  }

  predicate Enabled(user: User, factor: Factor) {
    match factor
    case TotpMethod => user.totpEnabled && user.totpSecret.Some? && "totp" in user.mfaMethods
    case EmailMethod => user.email.Some? && "email" in user.mfaMethods
    case OnsiteMethod => false
  }

  // ---------------------------------------------------------------- tickets and their Redis keys

  datatype Context = Context(purpose: string, binding: Option<string>, projectKey: Option<string>)

  datatype Record = Record(userId: string, context: Context, snapshot: Snapshot, onsite: bool, expiresAt: int)

  /** The HMAC stored for an emailed code, and the kiosk's satisfaction of a ticket. */
  datatype MailRaw = MailHash(digest: string, code: string)
  datatype OnsiteRaw = Satisfied(userId: string, nonce: nat)

  datatype Redis = Redis(
    tickets: map<string, Entry<Record>>,
    mails: map<string, Entry<MailRaw>>,
    setups: map<string, Entry<string>>,
    onsites: map<string, Entry<OnsiteRaw>>,
    ticketCounters: map<string, Counter>,
    userCounters: map<string, Counter>,
    pollCounters: map<string, Counter>)

  function CounterAt(counters: map<string, Counter>, key: string): Option<Counter> {
    if key in counters then Some(counters[key]) else None
  }

  /** CONSUME_MFA_TICKET: compares the ticket and the evidence that was checked, and deletes all four keys. */
  predicate Consumable(redis: Redis, digest: string, record: Record, mail: Option<MailRaw>, onsite: Option<OnsiteRaw>,
      now: int) {
    && Get(redis.tickets, digest, now) == Some(record)
    && (mail.Some? ==> Get(redis.mails, digest, now) == mail)
    && (onsite.Some? ==> Get(redis.onsites, digest, now) == onsite)
  }

  function Consumed(redis: Redis, digest: string): Redis {
    redis.(tickets := redis.tickets - {digest}, mails := redis.mails - {digest},
           setups := redis.setups - {digest}, onsites := redis.onsites - {digest})
  }

  // ---------------------------------------------------------------- attempts

  /** Verifying a challenge, or switching a factor on or off. */
  datatype Goal =
    | Verify(factor: Factor, code: string)
    | Change(factor: Factor, enable: bool, code: string)

  /**
   What an attempt under the row lock found good: the TOTP step, the raw mail proof to pin, and a secret being
   enrolled.
   */
  datatype Evidence = Evidence(step: Option<nat>, mail: Option<MailRaw>, secret: Option<string>)

  /** A verified attempt holds the lock of the user row it has read. */
  datatype Phase = Loaded | Admitted | Verified(user: User, evidence: Evidence, at: int) | Finished

  datatype Attempt = Attempt(digest: string, record: Record, goal: Goal, phase: Phase, onsiteRaw: Option<OnsiteRaw>)

  /** `checkedAt` is when the evidence was checked; `mail` and `onsite` are what Redis held at the consume. */
  datatype Completion = Completion(digest: string, record: Record, goal: Goal, user: User, evidence: Evidence,
                                   checkedAt: int, mail: Option<MailRaw>, onsite: Option<OnsiteRaw>, at: int)

  datatype Admission = Admission(digest: string, at: int)

  /** `locks` are the locked user rows; `issued`, `offered` (secrets set up for a ticket) and the rest are history. */
  datatype State = State(
    users: map<string, User>,
    redis: Redis,
    attempts: map<nat, Attempt>,
    locks: map<string, nat>,
    issued: map<string, Record>,
    offered: set<(string, string)>,
    admissions: seq<Admission>,
    log: seq<Completion>)

  datatype Step =
    | Issue(digest: string, userId: string, context: Context, onsite: bool, now: int)
    | Load(id: nat, digest: string, context: Context, goal: Goal, now: int)
    | Count(id: nat, now: int)
    | Check(id: nat, now: int)
    | Commit(id: nat, completes: bool, now: int)
    | SendMail(digest: string, code: string, now: int)
    | Satisfy(digest: string, raw: OnsiteRaw, expiresAt: int, now: int)
    | SetupTotp(digest: string, secret: string, now: int)
    | EditUser(userId: string, passwordHash: Option<string>, email: Option<string>, now: int)
    | LogoutAll(userId: string, now: int)

  function RemainingSeconds(record: Record, now: int): int {
    (record.expiresAt - now) / 1000
  }

  function Issued(st: State, digest: string, userId: string, context: Context, onsite: bool, now: int): State {
    if userId in st.users && digest !in st.issued then
      var record := Record(userId, context, SnapshotOf(st.users[userId]), onsite, now + MFA_TTL_MS);
      st.(issued := st.issued[digest := record],
          redis := st.redis.(tickets := st.redis.tickets[digest := Entry(record, now + MFA_TTL_MS)]))
    else
      st
  }

  /** readMfaTicket, at the start of an attempt. */
  function ReadTicket(redis: Redis, digest: string, context: Context, now: int): Option<Record> {
    var raw := Get(redis.tickets, digest, now);
    if raw.Some? && now < raw.value.expiresAt && raw.value.context == context then raw else None
  }

  function LoadedBy(st: State, id: nat, digest: string, context: Context, goal: Goal, now: int): State {
    var record := ReadTicket(st.redis, digest, context, now);
    if id !in st.attempts && record.Some? then
      st.(attempts := st.attempts[id := Attempt(digest, record.value, goal, Loaded, None)])
    else
      st
  }

  predicate UsesOnsiteEvidence(attempt: Attempt) {
    attempt.goal.Verify? && attempt.goal.factor.OnsiteMethod? && attempt.record.onsite
  }

  /** What counting an attempt leaves in Redis, and whether it is admitted. */
  datatype Tally = Tally(redis: Redis, admitted: bool)

  function PollTally(redis: Redis, digest: string, now: int): Tally {
    var polls := Hit(CounterAt(redis.pollCounters, digest), MFA_TTL_MS, now);
    Tally(redis.(pollCounters := redis.pollCounters[digest := polls]),
          polls.count <= ONSITE_POLLS && Get(redis.onsites, digest, now).Some?)
  }

  function GuessTally(redis: Redis, userId: string, digest: string, now: int): Tally {
    var forUser := Hit(CounterAt(redis.userCounters, userId), USER_WINDOW_MS, now);
    var counted := redis.(userCounters := redis.userCounters[userId := forUser]);
    if forUser.count > ATTEMPTS_PER_USER then Tally(counted, false) else
    var forTicket := Hit(CounterAt(redis.ticketCounters, digest), MFA_TTL_MS, now);
    Tally(counted.(ticketCounters := counted.ticketCounters[digest := forTicket]),
          forTicket.count <= ATTEMPTS_PER_TICKET)
  }

  /** readOnsiteEvidence for onsite attempts; countMfaAttempt for every other one. */
  function Counted(st: State, id: nat, now: int): State
    requires id in st.attempts
  {
    var attempt := st.attempts[id];
    if !attempt.phase.Loaded? then st else
    if UsesOnsiteEvidence(attempt) then
      var tally := PollTally(st.redis, attempt.digest, now);
      st.(redis := tally.redis, attempts := st.attempts[id :=
        if tally.admitted then attempt.(phase := Admitted, onsiteRaw := Get(st.redis.onsites, attempt.digest, now))
        else attempt.(phase := Finished)])
    else
      var tally := GuessTally(st.redis, attempt.record.userId, attempt.digest, now);
      st.(redis := tally.redis,
          attempts := st.attempts[id := attempt.(phase := if tally.admitted then Admitted else Finished)],
          admissions := st.admissions + if tally.admitted then [Admission(attempt.digest, now)] else [])
  }

  type Codes = (string, nat) -> string

  function CodesFor(codes: Codes, secret: string): nat -> string {
    (step: nat) => codes(secret, step)
  }

  function TotpEvidence(codes: Codes, secret: Option<string>, code: string, lastStep: Option<nat>,
      now: int): Option<Evidence> {
    if secret.None? || !IsCode(code) || now < 0 then None else
    var last := if lastStep.Some? then lastStep.value else -1;
    var step := AcceptedStep(CodesFor(codes, secret.value), Guess(code, now), last);
    if step.None? then None else Some(Evidence(step, None, None))
  }

  function MailEvidence(redis: Redis, digest: string, code: string, now: int): Option<Evidence> {
    if IsCode(code) && Get(redis.mails, digest, now) == Some(MailHash(digest, code))
    then Some(Evidence(None, Some(MailHash(digest, code)), None)) else None
  }

  /** isFactorAllowed */
  predicate FactorAllowed(user: User, record: Record, factor: Factor) {
    if record.onsite then factor.OnsiteMethod?
    else !factor.OnsiteMethod? && user.mfaEnabled && Enabled(user, factor)
  }

  /** Enrolling: the code of the secret that setup has stored. */
  function EnrolmentEvidence(codes: Codes, secret: Option<string>, code: string, now: int): Option<Evidence> {
    var evidence := TotpEvidence(codes, secret, code, None, now);
    if evidence.None? then None else Some(evidence.value.(secret := secret))
  }

  predicate OnsiteMatches(attempt: Attempt) {
    attempt.onsiteRaw.Some? && attempt.onsiteRaw.value.userId == attempt.record.userId
  }

  /** The checks between the row lock and the consume. */
  function Checked(codes: Codes, redis: Redis, user: User, attempt: Attempt, now: int): Option<Evidence> {
    if SnapshotOf(user) != attempt.record.snapshot then None else
    match attempt.goal
    case Verify(factor, code) =>
      if !FactorAllowed(user, attempt.record, factor) then None else
      (match factor
       case OnsiteMethod => if OnsiteMatches(attempt) then Some(Evidence(None, None, None)) else None
       case TotpMethod => TotpEvidence(codes, user.totpSecret, code, user.totpLastStep, now)
       case EmailMethod => MailEvidence(redis, attempt.digest, code, now))
    case Change(factor, enable, code) =>
      if Enabled(user, factor) == enable then None
      else if enable && factor.TotpMethod? then
        EnrolmentEvidence(codes, Get(redis.setups, attempt.digest, now), code, now)
      else if enable && factor.EmailMethod? then MailEvidence(redis, attempt.digest, code, now)
      else Some(Evidence(None, None, None))
  }

  function Distinct(names: seq<string>): seq<string> {
    if names == [] then [] else
    var n := |names| - 1;
    if names[n] in names[..n] then Distinct(names[..n]) else Distinct(names[..n]) + [names[n]]
  }

  function Without(names: seq<string>, name: string): seq<string> {
    if names == [] then [] else
    (if names[0] == name then [] else [names[0]]) + Without(names[1..], name)
  }

  /** The row written by a completed transaction. */
  function UpdatedUser(user: User, goal: Goal, evidence: Evidence): User {
    match goal
    case Verify(_, _) => if evidence.step.Some? then user.(totpLastStep := evidence.step) else user
    case Change(factor, enable, _) =>
      var methods :=
        if enable then Distinct(user.mfaMethods + [NameOf(factor)]) else Without(user.mfaMethods, NameOf(factor));
      var changed := user.(mfaMethods := methods, mfaEnabled := |methods| > 0, mfaRevision := user.mfaRevision + 1);
      if factor.TotpMethod? then
        if enable then changed.(totpSecret := evidence.secret, totpLastStep := evidence.step, totpEnabled := true)
        else changed.(totpSecret := None, totpLastStep := None, totpEnabled := false)
      else
        changed
  }

  function EndAttempt(st: State, id: nat): State
    requires id in st.attempts
  {
    st.(attempts := st.attempts[id := st.attempts[id].(phase := Finished)])
  }

  /** withMfaUser up to the consume: waits for the row lock, reads the row and the evidence, and checks them. */
  function CheckedBy(codes: Codes, st: State, id: nat, now: int): State
    requires id in st.attempts
  {
    var attempt := st.attempts[id];
    var userId := attempt.record.userId;
    if !attempt.phase.Admitted? || userId in st.locks then st else
    if userId !in st.users then EndAttempt(st, id) else
    var evidence := Checked(codes, st.redis, st.users[userId], attempt, now);
    if evidence.None? then EndAttempt(st, id) else
    st.(attempts := st.attempts[id := attempt.(phase := Verified(st.users[userId], evidence.value, now))],
        locks := st.locks[userId := id])
  }

  /**
   The rest of withMfaUser: `completes` says whether the final callback succeeds; if not, the row update is rolled
   back.
   */
  function Committed(st: State, id: nat, completes: bool, now: int): State
    requires id in st.attempts
  {
    var attempt := st.attempts[id];
    if !attempt.phase.Verified? then st else
    var userId, evidence := attempt.record.userId, attempt.phase.evidence;
    var released := EndAttempt(st, id).(locks := st.locks - {userId});
    if RemainingSeconds(attempt.record, now) < 1
       || !Consumable(st.redis, attempt.digest, attempt.record, evidence.mail, attempt.onsiteRaw, now) then
      released
    else
      var consumed := released.(redis := Consumed(st.redis, attempt.digest));
      if !completes then consumed else
      consumed.(users := st.users[userId := UpdatedUser(attempt.phase.user, attempt.goal, evidence)],
                log := st.log + [Completion(attempt.digest, attempt.record, attempt.goal, attempt.phase.user,
                                               evidence, attempt.phase.at, Get(st.redis.mails, attempt.digest, now),
                                               Get(st.redis.onsites, attempt.digest, now), now)])
  }

  function Next(codes: Codes, st: State, step: Step): State {
    match step
    case Issue(digest, userId, context, onsite, now) => Issued(st, digest, userId, context, onsite, now)
    case Load(id, digest, context, goal, now) => LoadedBy(st, id, digest, context, goal, now)
    case Count(id, now) => if id in st.attempts then Counted(st, id, now) else st
    case Check(id, now) => if id in st.attempts then CheckedBy(codes, st, id, now) else st
    case Commit(id, completes, now) => if id in st.attempts then Committed(st, id, completes, now) else st
    case SendMail(digest, code, now) =>
      if digest in st.issued && RemainingSeconds(st.issued[digest], now) >= 1 then
        st.(redis := st.redis.(mails := st.redis.mails[digest :=
          Entry(MailHash(digest, code), now + 1000 * RemainingSeconds(st.issued[digest], now))]))
      else st
    case Satisfy(digest, raw, expiresAt, now) =>
      st.(redis := st.redis.(onsites := st.redis.onsites[digest := Entry(raw, expiresAt)]))
    case SetupTotp(digest, secret, now) =>
      if digest in st.issued && RemainingSeconds(st.issued[digest], now) >= 1
         && Get(st.redis.setups, digest, now).None? then
        st.(offered := st.offered + {(digest, secret)},
            redis := st.redis.(setups := st.redis.setups[digest :=
              Entry(secret, now + 1000 * RemainingSeconds(st.issued[digest], now))]))
      else st
    case EditUser(userId, passwordHash, email, now) =>
      if userId in st.users && userId !in st.locks then
        st.(users := st.users[userId := st.users[userId].(passwordHash := passwordHash, email := email)])
      else st
    case LogoutAll(userId, now) =>
      if userId in st.users && userId !in st.locks then
        st.(users := st.users[userId := st.users[userId].(mfaRevision := st.users[userId].mfaRevision + 1)])
      else st
  }

  function Run(codes: Codes, st: State, trace: seq<Step>): State
    decreases |trace|
  {
    if trace == [] then st else
    var n := |trace| - 1;
    Next(codes, Run(codes, st, trace[..n]), trace[n])
  }

  ghost predicate Ordered(trace: seq<Step>) {
    forall i, j :: 0 <= i < j < |trace| ==> trace[i].now <= trace[j].now
  }

  function Initial(users: map<string, User>): State {
    State(users, Redis(map[], map[], map[], map[], map[], map[], map[]), map[], map[], map[], {}, [], [])
  }

  // ---------------------------------------------------------------- what every run keeps

  /** Tickets in Redis and in attempts are the issued ones; a ticket in the log is gone, and in the log once. */
  ghost predicate TicketInvariant(st: State) {
    && (forall d :: d in st.redis.tickets ==>
          d in st.issued && st.redis.tickets[d] == Entry(st.issued[d], st.issued[d].expiresAt))
    && (forall id :: id in st.attempts ==>
          st.attempts[id].digest in st.issued && st.attempts[id].record == st.issued[st.attempts[id].digest])
    && (forall i :: 0 <= i < |st.log| ==> st.log[i].digest in st.issued && st.log[i].digest !in st.redis.tickets)
    && (forall i, j :: 0 <= i < j < |st.log| ==> st.log[i].digest != st.log[j].digest)
    && (forall i :: 0 <= i < |st.log| ==> GoodCompletion(st.issued, st.log[i]))
  }

  /** Proving an address: the emailed code of this ticket. */
  ghost predicate NeedsMail(goal: Goal) {
    goal.factor.EmailMethod? && (goal.Change? ==> goal.enable)
  }

  /**
   A completion used the ticket as issued, under the user's pinned snapshot, a second or more before it ended, and with
   the evidence that Redis still held at the consume: the very code that was entered, the satisfaction of this user.
   */
  ghost predicate GoodCompletion(issued: map<string, Record>, entry: Completion) {
    && entry.digest in issued
    && entry.record == issued[entry.digest]
    && SnapshotOf(entry.user) == entry.record.snapshot
    && entry.at + 1000 <= entry.record.expiresAt
    && (entry.goal.Verify? ==> FactorAllowed(entry.user, entry.record, entry.goal.factor))
    && (NeedsMail(entry.goal) ==> entry.mail == Some(MailHash(entry.digest, entry.goal.code)))
    && (entry.goal.Verify? && entry.goal.factor.OnsiteMethod? ==>
          entry.onsite.Some? && entry.onsite.value.userId == entry.record.userId)
  }

  /** What the checks have established of a verified attempt. */
  ghost predicate Sound(attempt: Attempt)
    requires attempt.phase.Verified?
  {
    var user, evidence, goal := attempt.phase.user, attempt.phase.evidence, attempt.goal;
    && SnapshotOf(user) == attempt.record.snapshot
    && (goal.Verify? ==> FactorAllowed(user, attempt.record, goal.factor))
    && (NeedsMail(goal) ==> evidence.mail == Some(MailHash(attempt.digest, goal.code)))
    && (goal.Verify? && goal.factor.OnsiteMethod? ==> OnsiteMatches(attempt))
    && (evidence.step.Some? ==>
          && attempt.phase.at >= 0 && evidence.step.value <= attempt.phase.at / TOTP_PERIOD_MS + 1
          && goal.factor.TotpMethod?
          && (goal.Verify? && user.totpLastStep.Some? ==> user.totpLastStep.value < evidence.step.value))
  }

  /** A verified attempt holds its user's lock, and the row is as it read it. */
  ghost predicate LockInvariant(st: State) {
    forall id :: id in st.attempts && st.attempts[id].phase.Verified? ==>
      var userId := st.attempts[id].record.userId;
      && userId in st.locks && st.locks[userId] == id
      && userId in st.users && st.users[userId] == st.attempts[id].phase.user
      && Sound(st.attempts[id])
  }

  lemma CheckedIsSound(codes: Codes, redis: Redis, user: User, attempt: Attempt, now: int)
    requires Checked(codes, redis, user, attempt, now).Some?
    ensures Sound(attempt.(phase := Verified(user, Checked(codes, redis, user, attempt, now).value, now)))
  {
  }

  lemma CheckedKeepsLocks(codes: Codes, st: State, id: nat, now: int)
    requires id in st.attempts && LockInvariant(st)
    ensures LockInvariant(CheckedBy(codes, st, id, now))
  {
    var attempt := st.attempts[id];
    if attempt.record.userId in st.users {
      var user := st.users[attempt.record.userId];
      if Checked(codes, st.redis, user, attempt, now).Some? { CheckedIsSound(codes, st.redis, user, attempt, now); }
    }
  }

  lemma CommittedKeepsLocks(st: State, id: nat, completes: bool, now: int)
    requires id in st.attempts && LockInvariant(st)
    ensures LockInvariant(Committed(st, id, completes, now))
  {
  }

  /** Counting touches counters, admissions and the phase of one attempt. */
  ghost predicate SameButCounters(st: State, next: State) {
    && next.users == st.users && next.locks == st.locks && next.issued == st.issued && next.log == st.log
    && next.redis.tickets == st.redis.tickets && next.redis.setups == st.redis.setups && next.offered == st.offered
    && next.attempts.Keys == st.attempts.Keys
    && forall id :: id in st.attempts ==>
         || next.attempts[id] == st.attempts[id]
         || (&& next.attempts[id].digest == st.attempts[id].digest && next.attempts[id].record == st.attempts[id].record
             && !next.attempts[id].phase.Verified?)
  }

  lemma TalliesKeepTickets(redis: Redis, userId: string, digest: string, now: int)
    ensures PollTally(redis, digest, now).redis.tickets == redis.tickets
    ensures PollTally(redis, digest, now).redis.setups == redis.setups
    ensures GuessTally(redis, userId, digest, now).redis.tickets == redis.tickets
    ensures GuessTally(redis, userId, digest, now).redis.setups == redis.setups
  {
  }

  lemma CountedChangesCounters(st: State, id: nat, now: int)
    requires id in st.attempts
    ensures SameButCounters(st, Counted(st, id, now))
  {
    TalliesKeepTickets(st.redis, st.attempts[id].record.userId, st.attempts[id].digest, now);
  }

  lemma SameButCountersKeeps(st: State, next: State)
    requires SameButCounters(st, next)
    ensures LockInvariant(st) ==> LockInvariant(next)
    ensures TicketInvariant(st) ==> TicketInvariant(next)
  {
  }

  lemma LoadedKeepsLocks(st: State, id: nat, digest: string, context: Context, goal: Goal, now: int)
    requires LockInvariant(st)
    ensures LockInvariant(LoadedBy(st, id, digest, context, goal, now))
  {
  }

  /** A step outside any attempt, and outside issuing. */
  ghost predicate Outside(step: Step) {
    step.SendMail? || step.Satisfy? || step.SetupTotp? || step.EditUser? || step.LogoutAll?
  }

  lemma OutsideKeepsLocks(codes: Codes, st: State, step: Step)
    requires LockInvariant(st) && Outside(step)
    ensures LockInvariant(Next(codes, st, step))
  {
  }

  lemma NextKeepsLocks(codes: Codes, st: State, step: Step)
    requires LockInvariant(st)
    ensures LockInvariant(Next(codes, st, step))
  {
    match step
    case Issue(_, _, _, _, _) =>
    case Load(id, digest, context, goal, now) => LoadedKeepsLocks(st, id, digest, context, goal, now);
    case Count(id, now) =>
      if id in st.attempts {
        CountedChangesCounters(st, id, now);
        SameButCountersKeeps(st, Counted(st, id, now));
      }
    case Check(id, now) => if id in st.attempts { CheckedKeepsLocks(codes, st, id, now); }
    case Commit(id, completes, now) => if id in st.attempts { CommittedKeepsLocks(st, id, completes, now); }
    case _ => OutsideKeepsLocks(codes, st, step);
  }

  lemma {:induction false} RunKeepsLocks(codes: Codes, st: State, trace: seq<Step>)
    requires LockInvariant(st)
    ensures LockInvariant(Run(codes, st, trace))
    decreases |trace|
  {
    if trace != [] {
      var n := |trace| - 1;
      RunKeepsLocks(codes, st, trace[..n]);
      NextKeepsLocks(codes, Run(codes, st, trace[..n]), trace[n]);
    }
  }

  lemma CheckedKeepsTickets(codes: Codes, st: State, id: nat, now: int)
    requires id in st.attempts && TicketInvariant(st)
    ensures TicketInvariant(CheckedBy(codes, st, id, now))
  {
  }

  lemma CommittedKeepsTickets(st: State, id: nat, completes: bool, now: int)
    requires id in st.attempts && TicketInvariant(st) && LockInvariant(st)
    ensures TicketInvariant(Committed(st, id, completes, now))
  {
    var attempt := st.attempts[id];
    if attempt.phase.Verified? { assert Sound(attempt); }
  }

  lemma IssuedKeepsTickets(st: State, digest: string, userId: string, context: Context, onsite: bool, now: int)
    requires TicketInvariant(st)
    ensures TicketInvariant(Issued(st, digest, userId, context, onsite, now))
  {
  }

  lemma LoadedKeepsTickets(st: State, id: nat, digest: string, context: Context, goal: Goal, now: int)
    requires TicketInvariant(st)
    ensures TicketInvariant(LoadedBy(st, id, digest, context, goal, now))
  {
  }

  lemma OutsideLeavesTickets(codes: Codes, st: State, step: Step)
    requires Outside(step)
    ensures
      var next := Next(codes, st, step);
      && next.redis.tickets == st.redis.tickets && next.attempts == st.attempts
      && next.issued == st.issued && next.log == st.log
  {
  }

  lemma SameTicketsKeep(st: State, next: State)
    requires TicketInvariant(st) && next.redis.tickets == st.redis.tickets && next.attempts == st.attempts
    requires next.issued == st.issued && next.log == st.log
    ensures TicketInvariant(next)
  {
  }

  lemma NextKeepsTickets(codes: Codes, st: State, step: Step)
    requires TicketInvariant(st) && LockInvariant(st)
    ensures TicketInvariant(Next(codes, st, step))
  {
    match step
    case Issue(digest, userId, context, onsite, now) => IssuedKeepsTickets(st, digest, userId, context, onsite, now);
    case Load(id, digest, context, goal, now) => LoadedKeepsTickets(st, id, digest, context, goal, now);
    case Count(id, now) =>
      if id in st.attempts {
        CountedChangesCounters(st, id, now);
        SameButCountersKeeps(st, Counted(st, id, now));
      }
    case Check(id, now) => if id in st.attempts { CheckedKeepsTickets(codes, st, id, now); }
    case Commit(id, completes, now) => if id in st.attempts { CommittedKeepsTickets(st, id, completes, now); }
    case _ =>
      OutsideLeavesTickets(codes, st, step);
      SameTicketsKeep(st, Next(codes, st, step));
  }

  lemma {:induction false} LaterTickets(codes: Codes, st: State, trace: seq<Step>)
    requires TicketInvariant(st) && LockInvariant(st)
    ensures TicketInvariant(Run(codes, st, trace)) && LockInvariant(Run(codes, st, trace))
    decreases |trace|
  {
    RunKeepsLocks(codes, st, trace);
    if trace != [] {
      var n := |trace| - 1;
      LaterTickets(codes, st, trace[..n]);
      NextKeepsTickets(codes, Run(codes, st, trace[..n]), trace[n]);
    }
  }

  lemma RunKeepsTickets(codes: Codes, users: map<string, User>, trace: seq<Step>)
    ensures TicketInvariant(Run(codes, Initial(users), trace)) && LockInvariant(Run(codes, Initial(users), trace))
  {
    LaterTickets(codes, Initial(users), trace);
  }

  /** A code that was replaced between the check and the consume completes nothing, and the ticket lives on. */
  lemma ReplacedCodeIsRefused(codes: Codes, st: State, id: nat, code: string, sent: int, completes: bool, now: int)
    requires LockInvariant(st) && id in st.attempts && st.attempts[id].phase.Verified?
    requires NeedsMail(st.attempts[id].goal) && code != st.attempts[id].goal.code
    requires st.attempts[id].digest in st.issued && RemainingSeconds(st.issued[st.attempts[id].digest], sent) >= 1
    ensures
      var mailed := Next(codes, st, SendMail(st.attempts[id].digest, code, sent));
      var last := Next(codes, mailed, Commit(id, completes, now));
      last.log == st.log && last.users == st.users && last.redis.tickets == st.redis.tickets
  {
    assert Sound(st.attempts[id]);
  }

  /**
   In every interleaving a ticket completes at most once, as issued, only under the snapshot it was issued for, and with
   the emailed code or the onsite satisfaction that is stored for it at the consume.
   */
  lemma OneCompletionPerTicket(codes: Codes, users: map<string, User>, trace: seq<Step>)
    ensures
      var st := Run(codes, Initial(users), trace);
      && (forall i, j :: 0 <= i < j < |st.log| ==> st.log[i].digest != st.log[j].digest)
      && (forall i :: 0 <= i < |st.log| ==> GoodCompletion(st.issued, st.log[i]))
  {
    RunKeepsTickets(codes, users, trace);
  }

  // ---------------------------------------------------------------- authenticator codes

  /**
   The code is that of this secret for the step, which lies within one of the thirty seconds of the check and above the
   last step used.
   */
  ghost predicate RightCode(codes: Codes, secret: Option<string>, code: string, step: Option<nat>, last: Option<nat>,
      at: int) {
    && secret.Some? && step.Some? && at >= 0
    && codes(secret.value, step.value) == code
    && at / 30_000 - 1 <= step.value <= at / 30_000 + 1
    && (last.Some? ==> last.value < step.value)
  }

  /**
   Verifying takes a code of the secret in the user's row, above the step stored there; enrolling a code of a secret
   that setup has offered for this very ticket.
   */
  ghost predicate EarnedByCode(codes: Codes, offered: set<(string, string)>, digest: string, goal: Goal, user: User,
      evidence: Evidence, at: int) {
    goal.factor.TotpMethod? ==>
      match goal
      case Verify(_, code) => RightCode(codes, user.totpSecret, code, evidence.step, user.totpLastStep, at)
      case Change(_, enable, code) =>
        enable ==>
          && RightCode(codes, evidence.secret, code, evidence.step, None, at)
          && (digest, evidence.secret.value) in offered
  }

  ghost predicate CodeInvariant(codes: Codes, st: State) {
    && (forall d :: d in st.redis.setups ==> (d, st.redis.setups[d].value) in st.offered)
    && (forall id :: id in st.attempts && st.attempts[id].phase.Verified? ==>
          var a := st.attempts[id];
          EarnedByCode(codes, st.offered, a.digest, a.goal, a.phase.user, a.phase.evidence, a.phase.at))
    && (forall i :: 0 <= i < |st.log| ==>
          var e := st.log[i];
          EarnedByCode(codes, st.offered, e.digest, e.goal, e.user, e.evidence, e.checkedAt))
  }

  lemma CheckedIsEarned(codes: Codes, redis: Redis, offered: set<(string, string)>, user: User, attempt: Attempt,
      now: int)
    requires Checked(codes, redis, user, attempt, now).Some?
    requires forall d :: d in redis.setups ==> (d, redis.setups[d].value) in offered
    ensures EarnedByCode(codes, offered, attempt.digest, attempt.goal, user,
                         Checked(codes, redis, user, attempt, now).value, now)
  {
  }

  lemma CheckedKeepsCodes(codes: Codes, st: State, id: nat, now: int)
    requires id in st.attempts && CodeInvariant(codes, st)
    ensures CodeInvariant(codes, CheckedBy(codes, st, id, now))
  {
    var attempt := st.attempts[id];
    if attempt.record.userId in st.users {
      var user := st.users[attempt.record.userId];
      if Checked(codes, st.redis, user, attempt, now).Some? {
        CheckedIsEarned(codes, st.redis, st.offered, user, attempt, now);
      }
    }
  }

  lemma CommittedKeepsCodes(codes: Codes, st: State, id: nat, completes: bool, now: int)
    requires id in st.attempts && CodeInvariant(codes, st)
    ensures CodeInvariant(codes, Committed(st, id, completes, now))
  {
  }

  lemma SameButCountersKeepsCodes(codes: Codes, st: State, next: State)
    requires SameButCounters(st, next) && CodeInvariant(codes, st)
    ensures CodeInvariant(codes, next)
  {
  }

  lemma OutsideKeepsCodes(codes: Codes, st: State, step: Step)
    requires Outside(step) && CodeInvariant(codes, st)
    ensures CodeInvariant(codes, Next(codes, st, step))
  {
    OutsideLeavesTickets(codes, st, step);
  }

  lemma NextKeepsCodes(codes: Codes, st: State, step: Step)
    requires CodeInvariant(codes, st)
    ensures CodeInvariant(codes, Next(codes, st, step))
  {
    match step
    case Issue(_, _, _, _, _) =>
    case Load(_, _, _, _, _) =>
    case Count(id, now) =>
      if id in st.attempts {
        CountedChangesCounters(st, id, now);
        SameButCountersKeepsCodes(codes, st, Counted(st, id, now));
      }
    case Check(id, now) => if id in st.attempts { CheckedKeepsCodes(codes, st, id, now); }
    case Commit(id, completes, now) => if id in st.attempts { CommittedKeepsCodes(codes, st, id, completes, now); }
    case _ => OutsideKeepsCodes(codes, st, step);
  }

  lemma {:induction false} RunKeepsCodes(codes: Codes, users: map<string, User>, trace: seq<Step>)
    ensures CodeInvariant(codes, Run(codes, Initial(users), trace))
    decreases |trace|
  {
    if trace != [] {
      var n := |trace| - 1;
      RunKeepsCodes(codes, users, trace[..n]);
      NextKeepsCodes(codes, Run(codes, Initial(users), trace[..n]), trace[n]);
    }
  }

  /**
   In every interleaving: whoever completes with the authenticator has entered a code of the user's own secret for a
   step of that moment which had not been used, and whoever enrols it a code of a secret that was set up with this
   ticket.
   */
  lemma AuthenticatorCompletionsAreEarned(codes: Codes, users: map<string, User>, trace: seq<Step>, i: nat)
    requires i < |Run(codes, Initial(users), trace).log|
    ensures
      var st := Run(codes, Initial(users), trace);
      var e := st.log[i];
      && (forall code :: e.goal == Verify(TotpMethod, code) ==>
            RightCode(codes, e.user.totpSecret, code, e.evidence.step, e.user.totpLastStep, e.checkedAt))
      && (forall code :: e.goal == Change(TotpMethod, true, code) ==>
            && RightCode(codes, e.evidence.secret, code, e.evidence.step, None, e.checkedAt)
            && (e.digest, e.evidence.secret.value) in st.offered)
  {
    RunKeepsCodes(codes, users, trace);
  }

  // ---------------------------------------------------------------- what each step does, field by field

  /** How often the key was hit in its open window. */
  ghost function HitsInWindow(counters: map<string, Counter>, key: string, now: int): nat {
    if key in counters && now < counters[key].expiresAt then counters[key].count else 0
  }

  /** One more hit on this key alone: in its window, or opening one. */
  ghost predicate CountsOne(before: map<string, Counter>, after: map<string, Counter>, key: string, windowMs: int,
      now: int) {
    var hits := HitsInWindow(before, key, now);
    && key in after && after == before[key := after[key]] && after[key].count == hits + 1
    && after[key].expiresAt == if hits > 0 then before[key].expiresAt else now + windowMs
  }

  /** An onsite attempt on an onsite ticket is a poll, admitted with the satisfaction that Redis holds. */
  ghost predicate Polled(st: State, next: State, id: nat, now: int)
    requires id in st.attempts
  {
    var a := st.attempts[id];
    var d := a.digest;
    var polls, held := HitsInWindow(st.redis.pollCounters, d, now),
                       d in st.redis.onsites && now < st.redis.onsites[d].expiresAt;
    && CountsOne(st.redis.pollCounters, next.redis.pollCounters, d, 300_000, now)
    && next == st.(
         redis := st.redis.(pollCounters := next.redis.pollCounters),
         attempts := st.attempts[id := if polls < 300 && held
                                       then a.(phase := Admitted, onsiteRaw := Some(st.redis.onsites[d].value))
                                       else a.(phase := Finished)])
  }

  /** Any other attempt is a guess: counted for its user, and within that limit for its ticket, and admitted in both. */
  ghost predicate Guessed(st: State, next: State, id: nat, now: int)
    requires id in st.attempts
  {
    var a := st.attempts[id];
    var d, userId := a.digest, a.record.userId;
    var forUser, forTicket := HitsInWindow(st.redis.userCounters, userId, now),
                              HitsInWindow(st.redis.ticketCounters, d, now);
    var admitted := forUser < 20 && forTicket < 5;
    && CountsOne(st.redis.userCounters, next.redis.userCounters, userId, 900_000, now)
    && (if forUser < 20 then CountsOne(st.redis.ticketCounters, next.redis.ticketCounters, d, 300_000, now)
        else next.redis.ticketCounters == st.redis.ticketCounters)
    && next == st.(
         redis := st.redis.(userCounters := next.redis.userCounters, ticketCounters := next.redis.ticketCounters),
         attempts := st.attempts[id := a.(phase := if admitted then Admitted else Finished)],
         admissions := st.admissions + if admitted then [Admission(d, now)] else [])
  }

  lemma PollExactly(st: State, id: nat, now: int)
    requires id in st.attempts && st.attempts[id].phase.Loaded? && UsesOnsiteEvidence(st.attempts[id])
    ensures Polled(st, Counted(st, id, now), id, now)
  {
  }

  lemma GuessExactly(st: State, id: nat, now: int)
    requires id in st.attempts && st.attempts[id].phase.Loaded? && !UsesOnsiteEvidence(st.attempts[id])
    ensures Guessed(st, Counted(st, id, now), id, now)
  {
  }

  /** What counting does to a loaded attempt; it does nothing to any other. */
  lemma CountExactly(codes: Codes, st: State, id: nat, now: int)
    requires id in st.attempts
    ensures
      var a, next := st.attempts[id], Next(codes, st, Count(id, now));
      if !a.phase.Loaded? then next == st
      else if a.goal.Verify? && a.goal.factor.OnsiteMethod? && a.record.onsite then Polled(st, next, id, now)
      else Guessed(st, next, id, now)
  {
    if st.attempts[id].phase.Loaded? {
      if UsesOnsiteEvidence(st.attempts[id]) { PollExactly(st, id, now); } else { GuessExactly(st, id, now); }
    }
  }

  /** Codes and secrets are stored for what is left of their ticket, in whole seconds; a secret only where none is. */
  lemma EvidenceIsStoredExactly(codes: Codes, st: State, digest: string, text: string, now: int)
    requires digest in st.issued
    ensures
      var left := (st.issued[digest].expiresAt - now) / 1000;
      var mailed, setUp := Next(codes, st, SendMail(digest, text, now)), Next(codes, st, SetupTotp(digest, text, now));
      && mailed == (if left < 1 then st else
           st.(redis := st.redis.(mails :=
             st.redis.mails[digest := Entry(MailHash(digest, text), now + 1000 * left)])))
      && setUp == if left < 1 || (digest in st.redis.setups && now < st.redis.setups[digest].expiresAt) then st else
           st.(offered := st.offered + {(digest, text)},
               redis := st.redis.(setups := st.redis.setups[digest := Entry(text, now + 1000 * left)]))
  {
  }

  /** Some step of the window that has not been used has this code. */
  ghost predicate SomeStepMatches(codes: Codes, secret: string, code: string, last: Option<nat>, now: int) {
    SixDigits(code) && now >= 0 && exists step: nat :: RightCode(codes, Some(secret), code, Some(step), last, now)
  }

  ghost predicate MailedCode(redis: Redis, digest: string, code: string, now: int) {
    && SixDigits(code) && digest in redis.mails && now < redis.mails[digest].expiresAt
    && redis.mails[digest].value == MailHash(digest, code)
  }

  ghost predicate HasTotp(user: User) {
    user.totpEnabled && user.totpSecret.Some? && "totp" in user.mfaMethods
  }

  ghost predicate HasEmail(user: User) {
    user.email.Some? && "email" in user.mfaMethods
  }

  /** What the user must have entered and be allowed to do, for each goal. */
  ghost predicate Deserves(codes: Codes, redis: Redis, user: User, attempt: Attempt, now: int) {
    && attempt.record.snapshot == Sha256(user.passwordHash, user.email, user.mfaEnabled, user.mfaMethods,
                                         user.totpEnabled, user.totpSecret, user.mfaRevision)
    && match attempt.goal
       case Verify(OnsiteMethod, _) =>
         attempt.record.onsite && attempt.onsiteRaw.Some? && attempt.onsiteRaw.value.userId == attempt.record.userId
       case Verify(TotpMethod, code) =>
         && !attempt.record.onsite && user.mfaEnabled && HasTotp(user)
         && SomeStepMatches(codes, user.totpSecret.value, code, user.totpLastStep, now)
       case Verify(EmailMethod, code) =>
         !attempt.record.onsite && user.mfaEnabled && HasEmail(user) && MailedCode(redis, attempt.digest, code, now)
       case Change(TotpMethod, true, code) =>
         && !HasTotp(user) && attempt.digest in redis.setups && now < redis.setups[attempt.digest].expiresAt
         && SomeStepMatches(codes, redis.setups[attempt.digest].value, code, None, now)
       case Change(TotpMethod, false, _) => HasTotp(user)
       case Change(EmailMethod, true, code) => !HasEmail(user) && MailedCode(redis, attempt.digest, code, now)
       case Change(EmailMethod, false, _) => HasEmail(user)
       case Change(OnsiteMethod, enable, _) => enable
  }

  lemma TotpEvidenceExactly(codes: Codes, secret: Option<string>, code: string, last: Option<nat>, now: int)
    ensures
      TotpEvidence(codes, secret, code, last, now).Some?
      <==> secret.Some? && SomeStepMatches(codes, secret.value, code, last, now)
  {
    if secret.Some? && IsCode(code) && now >= 0 {
      var bound := if last.Some? then last.value else -1;
      if step: nat :| RightCode(codes, secret, code, Some(step), last, now) {
        assert Acceptable(CodesFor(codes, secret.value), code, bound, now, step);
      }
      var accepted := AcceptedStep(CodesFor(codes, secret.value), Guess(code, now), bound);
      if accepted.Some? { assert RightCode(codes, secret, code, accepted, last, now); }
    }
  }

  lemma CheckedExactly(codes: Codes, redis: Redis, user: User, attempt: Attempt, now: int)
    ensures Checked(codes, redis, user, attempt, now).Some? <==> Deserves(codes, redis, user, attempt, now)
  {
    var code := attempt.goal.code;
    TotpEvidenceExactly(codes, user.totpSecret, code, user.totpLastStep, now);
    TotpEvidenceExactly(codes, Get(redis.setups, attempt.digest, now), code, None, now);
  }

  /** An admitted attempt that gets the lock is verified exactly when the user deserves it, and ended otherwise. */
  lemma CheckExactly(codes: Codes, st: State, id: nat, now: int)
    requires id in st.attempts && st.attempts[id].phase.Admitted? && st.attempts[id].record.userId !in st.locks
    ensures
      var attempt, next := st.attempts[id], Next(codes, st, Check(id, now));
      var userId := attempt.record.userId;
      && id in next.attempts
      && (if userId in st.users && Deserves(codes, st.redis, st.users[userId], attempt, now) then
            && next.attempts[id].phase.Verified? && next.attempts[id].phase.user == st.users[userId]
            && next.attempts[id].phase.at == now && next.locks == st.locks[userId := id]
          else
            next.attempts[id].phase.Finished? && next.locks == st.locks)
      && next == st.(attempts := st.attempts[id := next.attempts[id]], locks := next.locks)
  {
    var attempt := st.attempts[id];
    if attempt.record.userId in st.users {
      CheckedExactly(codes, st.redis, st.users[attempt.record.userId], attempt, now);
    }
  }

  /** The same names, each once, and the new one among them. */
  ghost predicate NamesWith(before: seq<string>, name: string, after: seq<string>) {
    && (forall n :: n in after <==> n in before || n == name)
    && forall i, j :: 0 <= i < j < |after| ==> after[i] != after[j]
  }

  ghost predicate NamesWithout(before: seq<string>, name: string, after: seq<string>) {
    && name !in after && forall n :: n != name ==> multiset(after)[n] == multiset(before)[n]
  }

  lemma {:induction false} DistinctNames(names: seq<string>)
    ensures forall n :: n in Distinct(names) <==> n in names
    ensures forall i, j :: 0 <= i < j < |Distinct(names)| ==> Distinct(names)[i] != Distinct(names)[j]
  {
    if names != [] {
      var n := |names| - 1;
      DistinctNames(names[..n]);
      assert names == names[..n] + [names[n]];
    }
  }

  lemma {:induction false} RemainingNames(names: seq<string>, name: string)
    ensures NamesWithout(names, name, Without(names, name))
  {
    if names != [] {
      RemainingNames(names[1..], name);
      assert names == [names[0]] + names[1..];
    }
  }

  /** The row after a completion: a used step is stored, and a factor that was switched is, with a new revision. */
  ghost predicate RowAfter(user: User, goal: Goal, evidence: Evidence, row: User) {
    match goal
    case Verify(_, _) =>
      row == user.(totpLastStep := if evidence.step.Some? then evidence.step else user.totpLastStep)
    case Change(factor, enable, _) =>
      && var name := (if factor.TotpMethod? then "totp" else if factor.EmailMethod? then "email" else "onsite");
      && (if enable then NamesWith(user.mfaMethods, name, row.mfaMethods)
          else NamesWithout(user.mfaMethods, name, row.mfaMethods))
      && (row.mfaEnabled <==> row.mfaMethods != [])
      && row.mfaRevision == user.mfaRevision + 1
      && row.passwordHash == user.passwordHash && row.email == user.email
      && (if factor.TotpMethod? then
            row.totpEnabled == enable
            && row.totpSecret == (if enable then evidence.secret else None)
            && row.totpLastStep == (if enable then evidence.step else None)
          else
            row.totpEnabled == user.totpEnabled && row.totpSecret == user.totpSecret
            && row.totpLastStep == user.totpLastStep)
  }

  lemma UpdatedExactly(user: User, goal: Goal, evidence: Evidence)
    ensures RowAfter(user, goal, evidence, UpdatedUser(user, goal, evidence))
  {
    if goal.Change? {
      DistinctNames(user.mfaMethods + [NameOf(goal.factor)]);
      RemainingNames(user.mfaMethods, NameOf(goal.factor));
    }
  }

  /** The ticket is as read and has a second left, and the evidence that was pinned is still the one stored. */
  ghost predicate StillPinned(redis: Redis, attempt: Attempt, mail: Option<MailRaw>, now: int) {
    var d := attempt.digest;
    && attempt.record.expiresAt - now >= 1000
    && d in redis.tickets && now < redis.tickets[d].expiresAt && redis.tickets[d].value == attempt.record
    && (mail.Some? ==> d in redis.mails && now < redis.mails[d].expiresAt && redis.mails[d].value == mail.value)
    && (attempt.onsiteRaw.Some? ==>
          d in redis.onsites && now < redis.onsites[d].expiresAt && redis.onsites[d].value == attempt.onsiteRaw.value)
  }

  /** The entry in the log tells the attempt as it was verified, and the evidence that Redis held at the consume. */
  ghost predicate Records(entry: Completion, attempt: Attempt, redis: Redis, now: int)
    requires attempt.phase.Verified?
  {
    var d := attempt.digest;
    && entry.digest == d && entry.record == attempt.record && entry.goal == attempt.goal && entry.at == now
    && entry.user == attempt.phase.user && entry.evidence == attempt.phase.evidence
    && entry.checkedAt == attempt.phase.at
    && entry.mail == (if d in redis.mails && now < redis.mails[d].expiresAt then Some(redis.mails[d].value) else None)
    && entry.onsite
       == if d in redis.onsites && now < redis.onsites[d].expiresAt then Some(redis.onsites[d].value) else None
  }

  /** A commit takes the ticket exactly when all is still pinned; the row follows if the final callback succeeds. */
  lemma CommitExactly(codes: Codes, st: State, id: nat, completes: bool, now: int)
    requires id in st.attempts && st.attempts[id].phase.Verified?
    ensures
      var attempt, next := st.attempts[id], Next(codes, st, Commit(id, completes, now));
      var d, userId := attempt.digest, attempt.record.userId;
      var taken := StillPinned(st.redis, attempt, attempt.phase.evidence.mail, now);
      && id in next.attempts && next.attempts[id] == attempt.(phase := Finished)
      && next.locks == st.locks - {userId}
      && next.redis == (if !taken then st.redis else
           st.redis.(tickets := st.redis.tickets - {d}, mails := st.redis.mails - {d}, setups := st.redis.setups - {d},
                     onsites := st.redis.onsites - {d}))
      && (if taken && completes then
            && userId in next.users && next.users == st.users[userId := next.users[userId]]
            && RowAfter(attempt.phase.user, attempt.goal, attempt.phase.evidence, next.users[userId])
            && |next.log| == |st.log| + 1 && next.log[..|st.log|] == st.log
            && Records(next.log[|st.log|], attempt, st.redis, now)
          else
            next.users == st.users && next.log == st.log)
  {
    UpdatedExactly(st.attempts[id].phase.user, st.attempts[id].goal, st.attempts[id].phase.evidence);
  }

  // ---------------------------------------------------------------- five guesses

  function AdmittedBefore(admissions: seq<Admission>, digest: string, limit: int): nat {
    if admissions == [] then 0 else
    var n := |admissions| - 1;
    AdmittedBefore(admissions[..n], digest, limit)
    + if admissions[n].digest == digest && admissions[n].at < limit then 1 else 0
  }

  lemma AdmissionAppends(admissions: seq<Admission>, entry: Admission, digest: string, limit: int)
    ensures AdmittedBefore(admissions + [entry], digest, limit)
            == AdmittedBefore(admissions, digest, limit) + if entry.digest == digest && entry.at < limit then 1 else 0
  {
    assert (admissions + [entry])[..|admissions|] == admissions;
  }

  lemma {:induction false} NoneAdmitted(admissions: seq<Admission>, digest: string, limit: int)
    requires forall i :: 0 <= i < |admissions| ==> admissions[i].digest != digest
    ensures AdmittedBefore(admissions, digest, limit) == 0
  {
    if admissions != [] { NoneAdmitted(admissions[..|admissions| - 1], digest, limit); }
  }

  /**
   While a ticket lives, its counter's window cannot have ended: the first attempt opened it no earlier than the
   ticket.
   */
  ghost predicate TicketBudget(st: State, digest: string, clock: int)
    requires digest in st.issued
  {
    var end := st.issued[digest].expiresAt;
    var admitted := AdmittedBefore(st.admissions, digest, end);
    && end <= clock + MFA_TTL_MS
    && admitted <= ATTEMPTS_PER_TICKET
    && (clock < end && digest !in st.redis.ticketCounters ==> admitted == 0)
    && (clock < end && digest in st.redis.ticketCounters ==>
      && end <= st.redis.ticketCounters[digest].expiresAt
      && 0 < st.redis.ticketCounters[digest].count
      && admitted <= st.redis.ticketCounters[digest].count)
  }

  ghost predicate BudgetInvariant(st: State, clock: int) {
    && (forall d :: d in st.issued ==> TicketBudget(st, d, clock))
    && (forall d :: d in st.redis.ticketCounters ==> d in st.issued)
    && (forall i :: 0 <= i < |st.admissions| ==> st.admissions[i].digest in st.issued)
  }

  /** What counting does to the guess budget: nothing, or one hit on the attempt's own ticket. */
  ghost predicate CountEffect(st: State, next: State, digest: string, now: int) {
    var hit := Hit(CounterAt(st.redis.ticketCounters, digest), MFA_TTL_MS, now);
    && next.issued == st.issued
    && ((next.admissions == st.admissions && next.redis.ticketCounters == st.redis.ticketCounters)
        || (next.redis.ticketCounters == st.redis.ticketCounters[digest := hit]
            && next.admissions == (if hit.count <= ATTEMPTS_PER_TICKET then st.admissions + [Admission(digest, now)]
                                   else st.admissions)))
  }

  /** What a tally makes of the ticket's counter: nothing, or one hit, which admits within the limit. */
  ghost predicate TallyEffect(redis: Redis, tally: Tally, digest: string, now: int) {
    var hit := Hit(CounterAt(redis.ticketCounters, digest), MFA_TTL_MS, now);
    || (!tally.admitted && tally.redis.ticketCounters == redis.ticketCounters)
    || (&& tally.redis.ticketCounters == redis.ticketCounters[digest := hit]
        && (tally.admitted <==> hit.count <= ATTEMPTS_PER_TICKET))
  }

  lemma TalliesOnTicket(redis: Redis, userId: string, digest: string, now: int)
    ensures PollTally(redis, digest, now).redis.ticketCounters == redis.ticketCounters
    ensures TallyEffect(redis, GuessTally(redis, userId, digest, now), digest, now)
  {
  }

  lemma CountedEffect(st: State, id: nat, now: int)
    requires id in st.attempts
    ensures CountEffect(st, Counted(st, id, now), st.attempts[id].digest, now)
  {
    TalliesOnTicket(st.redis, st.attempts[id].record.userId, st.attempts[id].digest, now);
  }

  lemma HitKeepsBudget(st: State, next: State, digest: string, clock: int, now: int, d: string)
    requires d in st.issued && TicketBudget(st, d, clock) && clock <= now
    requires CountEffect(st, next, digest, now)
    ensures TicketBudget(next, d, now)
  {
    AdmissionAppends(st.admissions, Admission(digest, now), d, st.issued[d].expiresAt);
  }

  lemma {:induction false} CountedKeepsBudget(st: State, id: nat, clock: int, now: int)
    requires id in st.attempts && TicketInvariant(st) && BudgetInvariant(st, clock) && clock <= now
    ensures BudgetInvariant(Counted(st, id, now), now)
  {
    var next, digest := Counted(st, id, now), st.attempts[id].digest;
    CountedEffect(st, id, now);
    forall d | d in next.issued ensures TicketBudget(next, d, now) {
      HitKeepsBudget(st, next, digest, clock, now, d);
    }
  }

  /** The other steps leave the budget alone, except that a new ticket starts with an empty one. */
  ghost predicate LeavesBudget(st: State, next: State) {
    next.issued == st.issued && next.admissions == st.admissions && next.redis.ticketCounters == st.redis.ticketCounters
  }

  lemma AttemptsLeaveBudget(codes: Codes, st: State, id: nat, completes: bool, now: int)
    requires id in st.attempts
    ensures LeavesBudget(st, CheckedBy(codes, st, id, now)) && LeavesBudget(st, Committed(st, id, completes, now))
  {
  }

  lemma LoadsLeaveBudget(st: State, id: nat, digest: string, context: Context, goal: Goal, now: int)
    ensures LeavesBudget(st, LoadedBy(st, id, digest, context, goal, now))
  {
  }

  lemma OutsideLeavesBudget(codes: Codes, st: State, step: Step)
    requires Outside(step)
    ensures LeavesBudget(st, Next(codes, st, step))
  {
  }

  lemma OtherStepEffect(codes: Codes, st: State, step: Step)
    requires !step.Count?
    ensures
      var next := Next(codes, st, step);
      && next.admissions == st.admissions && next.redis.ticketCounters == st.redis.ticketCounters
      && (forall d :: d in st.issued ==> d in next.issued && next.issued[d] == st.issued[d])
      && (forall d :: d in next.issued && d !in st.issued ==> next.issued[d].expiresAt == step.now + MFA_TTL_MS)
  {
    match step
    case Issue(_, _, _, _, _) =>
    case Load(id, digest, context, goal, now) => LoadsLeaveBudget(st, id, digest, context, goal, now);
    case Check(id, now) => if id in st.attempts { AttemptsLeaveBudget(codes, st, id, true, now); }
    case Commit(id, completes, now) => if id in st.attempts { AttemptsLeaveBudget(codes, st, id, completes, now); }
    case _ => OutsideLeavesBudget(codes, st, step);
  }

  lemma {:induction false} NextKeepsBudget(codes: Codes, st: State, step: Step, clock: int)
    requires TicketInvariant(st) && BudgetInvariant(st, clock) && clock <= step.now
    ensures BudgetInvariant(Next(codes, st, step), step.now)
  {
    var next := Next(codes, st, step);
    if step.Count? && step.id in st.attempts {
      CountedKeepsBudget(st, step.id, clock, step.now);
    } else if step.Count? {
      forall d | d in next.issued ensures TicketBudget(next, d, step.now) { assert TicketBudget(st, d, clock); }
    } else {
      OtherStepEffect(codes, st, step);
      forall d | d in next.issued ensures TicketBudget(next, d, step.now) {
        if d in st.issued {
          assert TicketBudget(st, d, clock);
        } else {
          NoneAdmitted(st.admissions, d, next.issued[d].expiresAt);
        }
      }
    }
  }

  lemma {:induction false} RunKeepsBudget(codes: Codes, users: map<string, User>, trace: seq<Step>)
    requires Ordered(trace) && trace != []
    ensures BudgetInvariant(Run(codes, Initial(users), trace), trace[|trace| - 1].now)
    decreases |trace|
  {
    var n := |trace| - 1;
    RunKeepsTickets(codes, users, trace[..n]);
    if n > 0 {
      RunKeepsBudget(codes, users, trace[..n]);
      NextKeepsBudget(codes, Run(codes, Initial(users), trace[..n]), trace[n], trace[n - 1].now);
    } else {
      NextKeepsBudget(codes, Initial(users), trace[0], trace[0].now);
    }
  }

  /** Whatever the interleaving, at most five guesses are admitted for a ticket during its life. */
  lemma AtMostFiveGuesses(codes: Codes, users: map<string, User>, trace: seq<Step>, digest: string)
    requires Ordered(trace) && digest in Run(codes, Initial(users), trace).issued
    ensures
      var st := Run(codes, Initial(users), trace);
      AdmittedBefore(st.admissions, digest, st.issued[digest].expiresAt) <= 5
  {
    if trace != [] {
      RunKeepsBudget(codes, users, trace);
      assert TicketBudget(Run(codes, Initial(users), trace), digest, trace[|trace| - 1].now);
    }
  }

  // ---------------------------------------------------------------- factor changes and TOTP steps

  lemma CommittedKeepsRevisions(st: State, id: nat, completes: bool, now: int, userId: string)
    requires id in st.attempts && userId in st.users && LockInvariant(st)
    ensures userId in Committed(st, id, completes, now).users
    ensures st.users[userId].mfaRevision <= Committed(st, id, completes, now).users[userId].mfaRevision
  {
  }

  /** A revision never decreases, whatever happens. */
  lemma NextKeepsRevisions(codes: Codes, st: State, step: Step, userId: string)
    requires userId in st.users && LockInvariant(st)
    ensures userId in Next(codes, st, step).users
    ensures st.users[userId].mfaRevision <= Next(codes, st, step).users[userId].mfaRevision
  {
    match step
    case Commit(id, completes, now) =>
      if id in st.attempts { CommittedKeepsRevisions(st, id, completes, now, userId); }
    case Count(id, now) => if id in st.attempts { CountedChangesCounters(st, id, now); }
    case Check(_, _) =>
    case _ =>
  }

  /** The ticket is older than its user's factors. */
  ghost predicate Stale(st: State, digest: string, record: Record) {
    && digest in st.issued && st.issued[digest] == record
    && record.userId in st.users
    && record.snapshot.mfaRevision < st.users[record.userId].mfaRevision
  }

  /** The step completes no attempt on the ticket: it logs nothing, or a completion of another ticket. */
  ghost predicate CompletesElsewhere(st: State, next: State, digest: string) {
    || next.log == st.log
    || (|next.log| == |st.log| + 1 && next.log[..|st.log|] == st.log && next.log[|st.log|].digest != digest)
  }

  lemma StaleStaysUnused(codes: Codes, st: State, step: Step, digest: string, record: Record)
    requires TicketInvariant(st) && LockInvariant(st) && Stale(st, digest, record)
    ensures Stale(Next(codes, st, step), digest, record)
    ensures CompletesElsewhere(st, Next(codes, st, step), digest)
  {
    NextKeepsRevisions(codes, st, step, record.userId);
    if step.Commit? && step.id in st.attempts && st.attempts[step.id].phase.Verified? {
      assert Sound(st.attempts[step.id]);
    }
  }

  ghost predicate UnusedSince(start: State, st: State, digest: string) {
    |start.log| <= |st.log| && forall i :: |start.log| <= i < |st.log| ==> st.log[i].digest != digest
  }

  lemma StillUnused(start: State, st: State, next: State, digest: string)
    requires UnusedSince(start, st, digest) && CompletesElsewhere(st, next, digest)
    ensures UnusedSince(start, next, digest)
  {
    if next.log != st.log {
      assert forall i :: 0 <= i < |st.log| ==> next.log[i] == next.log[..|st.log|][i];
    }
  }

  /**
   Once the user's revision has moved past a ticket's, by a factor change or a logout of all devices, that ticket
   never completes again.
   */
  lemma {:induction false} FactorChangeEndsOlderTickets(codes: Codes, st: State, trace: seq<Step>, digest: string,
      record: Record)
    requires TicketInvariant(st) && LockInvariant(st) && Stale(st, digest, record)
    ensures
      var last := Run(codes, st, trace);
      Stale(last, digest, record) && UnusedSince(st, last, digest)
    decreases |trace|
  {
    if trace != [] {
      var n := |trace| - 1;
      var before := Run(codes, st, trace[..n]);
      FactorChangeEndsOlderTickets(codes, st, trace[..n], digest, record);
      LaterTickets(codes, st, trace[..n]);
      StaleStaysUnused(codes, before, trace[n], digest, record);
      StillUnused(st, before, Run(codes, st, trace), digest);
    }
  }

  /** The completion enrols or removes the user's authenticator. */
  ghost predicate ChangesTotp(entry: Completion, userId: string) {
    entry.record.userId == userId && entry.goal.Change? && entry.goal.factor.TotpMethod?
  }

  /**
   A step keeps the enrolled authenticator, unless it changes it; an accepted TOTP step is stored, above the one
   before.
   */
  ghost predicate StoresStep(st: State, next: State, userId: string) {
    && userId in st.users && userId in next.users
    && (next.log == st.log || (|next.log| == |st.log| + 1 && next.log[..|st.log|] == st.log))
    && (next.log == st.log || !ChangesTotp(next.log[|st.log|], userId) ==>
      && next.users[userId].totpSecret == st.users[userId].totpSecret
      && (if next.log != st.log && StepOf(next.log[|st.log|], userId) >= 0 then
            && next.users[userId].totpLastStep == next.log[|st.log|].evidence.step
            && (st.users[userId].totpLastStep.Some? ==>
                  st.users[userId].totpLastStep.value < next.log[|st.log|].evidence.step.value)
          else
            next.users[userId].totpLastStep == st.users[userId].totpLastStep))
  }

  lemma CommittedStoresStep(st: State, id: nat, completes: bool, now: int, userId: string)
    requires userId in st.users && id in st.attempts && LockInvariant(st)
    ensures StoresStep(st, Committed(st, id, completes, now), userId)
  {
    if st.attempts[id].phase.Verified? { assert Sound(st.attempts[id]); }
  }

  lemma NextStoresStep(codes: Codes, st: State, step: Step, userId: string)
    requires userId in st.users && LockInvariant(st)
    ensures StoresStep(st, Next(codes, st, step), userId)
  {
    if step.Commit? && step.id in st.attempts {
      CommittedStoresStep(st, step.id, step.completes, step.now, userId);
    }
  }

  /** No completion since `start` enrolled or removed the user's authenticator. */
  ghost predicate SameAuthenticator(start: State, st: State, userId: string) {
    forall i :: |start.log| <= i < |st.log| ==> !ChangesTotp(st.log[i], userId)
  }

  /** Under the same authenticator, the TOTP steps accepted since `start` lie above the one stored then and increase. */
  ghost predicate RisenSince(start: State, st: State, userId: string)
    requires userId in start.users
  {
    && userId in st.users && |start.log| <= |st.log|
    && (SameAuthenticator(start, st, userId) ==>
      && st.users[userId].totpSecret == start.users[userId].totpSecret
      && (start.users[userId].totpLastStep.Some? ==>
            && st.users[userId].totpLastStep.Some?
            && start.users[userId].totpLastStep.value <= st.users[userId].totpLastStep.value)
      && (forall i :: |start.log| <= i < |st.log| && StepOf(st.log[i], userId) >= 0 ==>
            && (start.users[userId].totpLastStep.Some? ==>
                  start.users[userId].totpLastStep.value < StepOf(st.log[i], userId))
            && st.users[userId].totpLastStep.Some? && StepOf(st.log[i], userId) <= st.users[userId].totpLastStep.value)
      && (forall i, j :: |start.log| <= i < j < |st.log| && StepOf(st.log[i], userId) >= 0
                         && StepOf(st.log[j], userId) >= 0 ==>
            StepOf(st.log[i], userId) < StepOf(st.log[j], userId)))
  }

  /** The step a completion accepted for this user, or -1. */
  function StepOf(entry: Completion, userId: string): int {
    if entry.record.userId == userId && entry.evidence.step.Some? then entry.evidence.step.value else -1
  }

  lemma StoringKeepsRising(start: State, st: State, next: State, userId: string)
    requires userId in start.users && RisenSince(start, st, userId) && StoresStep(st, next, userId)
    ensures RisenSince(start, next, userId)
  {
    assert next.log != st.log ==> forall i :: 0 <= i < |st.log| ==> next.log[i] == next.log[..|st.log|][i];
    if SameAuthenticator(start, next, userId) {
      assert SameAuthenticator(start, st, userId);
      if next.log != st.log { assert !ChangesTotp(next.log[|st.log|], userId); }
    }
  }

  /**
   In every interleaving, between enrolment and removal of an authenticator no TOTP step is accepted twice:
   accepted steps strictly increase, whatever other factors change.
   */
  lemma {:induction false} AcceptedStepsRise(codes: Codes, start: State, trace: seq<Step>, userId: string)
    requires userId in start.users && LockInvariant(start)
    ensures RisenSince(start, Run(codes, start, trace), userId)
    decreases |trace|
  {
    if trace != [] {
      var n := |trace| - 1;
      var before := Run(codes, start, trace[..n]);
      AcceptedStepsRise(codes, start, trace[..n], userId);
      RunKeepsLocks(codes, start, trace[..n]);
      NextStoresStep(codes, before, trace[n], userId);
      StoringKeepsRising(start, before, Next(codes, before, trace[n]), userId);
    }
  }

  /** How many TOTP steps this user's completions have accepted from log entry `from` on. */
  function AcceptedFrom(log: seq<Completion>, from: nat, userId: string): nat {
    if |log| <= from then 0 else
    var n := |log| - 1;
    AcceptedFrom(log[..n], from, userId) + if StepOf(log[n], userId) >= 0 then 1 else 0
  }

  /** Under the same authenticator, every acceptance since `start` has raised the stored step. */
  ghost predicate CountedBySteps(start: State, st: State, userId: string)
    requires userId in start.users
  {
    && userId in st.users && |start.log| <= |st.log|
    && (SameAuthenticator(start, st, userId) && start.users[userId].totpLastStep.Some? ==>
          && st.users[userId].totpLastStep.Some?
          && AcceptedFrom(st.log, |start.log|, userId) + start.users[userId].totpLastStep.value
             <= st.users[userId].totpLastStep.value)
  }

  lemma StoringKeepsCount(start: State, st: State, next: State, userId: string)
    requires userId in start.users && CountedBySteps(start, st, userId) && StoresStep(st, next, userId)
    ensures CountedBySteps(start, next, userId)
  {
    if next.log != st.log && SameAuthenticator(start, next, userId) {
      assert forall i :: 0 <= i < |st.log| ==> next.log[i] == next.log[..|st.log|][i];
      assert SameAuthenticator(start, st, userId);
      assert !ChangesTotp(next.log[|st.log|], userId);
    }
  }

  /** Neither a check under way nor the stored step is ahead of the clock. */
  ghost predicate WithinClock(st: State, userId: string, t: nat) {
    && (forall id :: id in st.attempts && st.attempts[id].phase.Verified? ==> st.attempts[id].phase.at <= t)
    && (userId in st.users && st.users[userId].totpLastStep.Some? ==>
          st.users[userId].totpLastStep.value <= t / 30_000 + 1)
  }

  lemma CommittedKeepsClock(st: State, id: nat, completes: bool, now: int, userId: string, t: nat)
    requires id in st.attempts && LockInvariant(st) && WithinClock(st, userId, t)
    ensures WithinClock(Committed(st, id, completes, now), userId, t)
  {
    if st.attempts[id].phase.Verified? { assert Sound(st.attempts[id]); }
  }

  lemma CheckedKeepsClock(codes: Codes, st: State, id: nat, userId: string, now: int, t: nat)
    requires id in st.attempts && WithinClock(st, userId, t) && now <= t
    ensures WithinClock(CheckedBy(codes, st, id, now), userId, t)
  {
  }

  lemma NextKeepsClock(codes: Codes, st: State, step: Step, userId: string, t: nat)
    requires LockInvariant(st) && WithinClock(st, userId, t) && step.now <= t
    ensures WithinClock(Next(codes, st, step), userId, t)
  {
    match step
    case Count(id, now) => if id in st.attempts { CountedChangesCounters(st, id, now); }
    case Check(id, now) => if id in st.attempts { CheckedKeepsClock(codes, st, id, userId, now, t); }
    case Commit(id, completes, now) => if id in st.attempts { CommittedKeepsClock(st, id, completes, now, userId, t); }
    case _ =>
  }

  lemma {:induction false} RunKeepsCount(codes: Codes, start: State, trace: seq<Step>, userId: string, t: nat)
    requires userId in start.users && LockInvariant(start) && WithinClock(start, userId, t)
    requires forall i :: 0 <= i < |trace| ==> trace[i].now <= t
    ensures CountedBySteps(start, Run(codes, start, trace), userId) && WithinClock(Run(codes, start, trace), userId, t)
    decreases |trace|
  {
    if trace != [] {
      var n := |trace| - 1;
      var before := Run(codes, start, trace[..n]);
      RunKeepsCount(codes, start, trace[..n], userId, t);
      RunKeepsLocks(codes, start, trace[..n]);
      NextStoresStep(codes, before, trace[n], userId);
      StoringKeepsCount(start, before, Next(codes, before, trace[n]), userId);
      NextKeepsClock(codes, before, trace[n], userId, t);
    }
  }

  /**
   In every interleaving up to time t, while the authenticator is the same, at most floor(t / 30000) + 1 codes less the
   step stored at the start are accepted.
   */
  lemma TotpAcceptancesAreBounded(codes: Codes, start: State, trace: seq<Step>, userId: string, t: nat)
    requires userId in start.users && start.users[userId].totpLastStep.Some?
    requires LockInvariant(start) && WithinClock(start, userId, t)
    requires forall i :: 0 <= i < |trace| ==> trace[i].now <= t
    requires SameAuthenticator(start, Run(codes, start, trace), userId)
    ensures AcceptedFrom(Run(codes, start, trace).log, |start.log|, userId)
            <= t / 30_000 + 1 - start.users[userId].totpLastStep.value
  {
    RunKeepsCount(codes, start, trace, userId, t);
  }

  // ---------------------------------------------------------------- a whole login

  lemma RunAppends(codes: Codes, st: State, trace: seq<Step>, step: Step)
    ensures Run(codes, st, trace + [step]) == Next(codes, Run(codes, st, trace), step)
  {
    assert (trace + [step])[..|trace|] == trace;
  }

  /** A ticket for the user that has been issued at this time, and an attempt on it with this code. */
  ghost predicate Presented(st: State, later: State, digest: string, userId: string, context: Context, id: nat,
      code: string, start: int, phase: Phase)
    requires userId in st.users
  {
    var record := Record(userId, context, SnapshotOf(st.users[userId]), false, start + 300_000);
    && id in later.attempts && later.attempts[id] == Attempt(digest, record, Verify(TotpMethod, code), phase, None)
    && later.users == st.users && later.locks == st.locks && later.log == st.log
    && digest in later.redis.tickets && later.redis.tickets[digest] == Entry(record, start + 300_000)
  }

  lemma LoginIsLoaded(codes: Codes, st: State, digest: string, userId: string, context: Context, id: nat, code: string,
      start: int, now: int)
    requires userId in st.users && digest !in st.issued && id !in st.attempts && start <= now < start + 300_000
    ensures
      var loaded := Next(codes, Next(codes, st, Issue(digest, userId, context, false, start)),
                         Load(id, digest, context, Verify(TotpMethod, code), now));
      && Presented(st, loaded, digest, userId, context, id, code, start, Loaded)
      && loaded.redis.userCounters == st.redis.userCounters && loaded.redis.ticketCounters == st.redis.ticketCounters
  {
  }

  lemma LoginIsCounted(codes: Codes, st: State, loaded: State, digest: string, userId: string, context: Context,
      id: nat, code: string, start: int, now: int)
    requires userId in st.users && Presented(st, loaded, digest, userId, context, id, code, start, Loaded)
    requires HitsInWindow(loaded.redis.userCounters, userId, now) < 20
    requires HitsInWindow(loaded.redis.ticketCounters, digest, now) < 5
    ensures Presented(st, Next(codes, loaded, Count(id, now)), digest, userId, context, id, code, start, Admitted)
  {
  }

  /** What becomes of an admitted attempt with nothing in between and a second left. */
  lemma LoginIsDecided(codes: Codes, st: State, admitted: State, digest: string, userId: string, context: Context,
      id: nat, code: string, start: int, now: int)
    requires userId in st.users && Presented(st, admitted, digest, userId, context, id, code, start, Admitted)
    requires userId !in st.locks && st.users[userId].mfaEnabled && HasTotp(st.users[userId])
    requires now <= start + 299_000
    ensures
      var last := Next(codes, Next(codes, admitted, Check(id, now)), Commit(id, true, now));
      var user := st.users[userId];
      if SomeStepMatches(codes, user.totpSecret.value, code, user.totpLastStep, now)
      then Completes(st, last, digest, userId, code)
      else last.log == st.log && last.users == st.users
  {
    var checked := Next(codes, admitted, Check(id, now));
    CheckExactly(codes, admitted, id, now);
    if Deserves(codes, admitted.redis, st.users[userId], admitted.attempts[id], now) {
      CommitExactly(codes, checked, id, true, now);
    }
  }

  /** One completion of this login, and a later accepted step in the user's row. */
  ghost predicate Completes(st: State, last: State, digest: string, userId: string, code: string)
    requires userId in st.users
  {
    var before, n := st.users[userId].totpLastStep, |st.log|;
    && |last.log| == n + 1 && last.log[..n] == st.log
    && last.log[n].digest == digest && last.log[n].goal == Verify(TotpMethod, code)
    && userId in last.users && last.users[userId].totpLastStep.Some?
    && (before.Some? ==> before.value < last.users[userId].totpLastStep.value)
  }

  /**
   A login by authenticator from the ticket to its end, with nothing in between and a second left: it completes, and
   stores a later step than before, if the code is that of a step of the window that has not been used, and changes
   neither row nor log otherwise.
   */
  lemma LoginCompletesExactly(codes: Codes, st: State, digest: string, userId: string, context: Context, id: nat,
      code: string, start: int, now: int)
    requires userId in st.users && digest !in st.issued && id !in st.attempts && start <= now <= start + 299_000
    requires HitsInWindow(st.redis.userCounters, userId, now) < 20
    requires HitsInWindow(st.redis.ticketCounters, digest, now) < 5
    requires userId !in st.locks && st.users[userId].mfaEnabled && HasTotp(st.users[userId])
    ensures
      var user := st.users[userId];
      var last := Run(codes, st, [Issue(digest, userId, context, false, start),
                                  Load(id, digest, context, Verify(TotpMethod, code), now), Count(id, now),
                                  Check(id, now), Commit(id, true, now)]);
      if SomeStepMatches(codes, user.totpSecret.value, code, user.totpLastStep, now)
      then Completes(st, last, digest, userId, code)
      else last.log == st.log && last.users == st.users
  {
    var issue, load := Issue(digest, userId, context, false, start),
                       Load(id, digest, context, Verify(TotpMethod, code), now);
    var loaded := Next(codes, Next(codes, st, issue), load);
    RunOfFive(codes, st, issue, load, Count(id, now), Check(id, now), Commit(id, true, now));
    LoginIsLoaded(codes, st, digest, userId, context, id, code, start, now);
    LoginIsCounted(codes, st, loaded, digest, userId, context, id, code, start, now);
    LoginIsDecided(codes, st, Next(codes, loaded, Count(id, now)), digest, userId, context, id, code, start, now);
  }

  lemma RunOfThree(codes: Codes, st: State, a: Step, b: Step, c: Step)
    ensures Run(codes, st, [a, b, c]) == Next(codes, Next(codes, Next(codes, st, a), b), c)
  {
    assert Run(codes, st, [a]) == Next(codes, st, a) by {
      assert [] + [a] == [a];
      RunAppends(codes, st, [], a);
    }
    assert Run(codes, st, [a, b]) == Next(codes, Next(codes, st, a), b) by {
      assert [a] + [b] == [a, b];
      RunAppends(codes, st, [a], b);
    }
    assert [a, b] + [c] == [a, b, c];
    RunAppends(codes, st, [a, b], c);
  }

  lemma RunOfFive(codes: Codes, st: State, a: Step, b: Step, c: Step, d: Step, e: Step)
    ensures Run(codes, st, [a, b, c, d, e])
            == Next(codes, Next(codes, Next(codes, Next(codes, Next(codes, st, a), b), c), d), e)
  {
    RunOfThree(codes, st, a, b, c);
    assert Run(codes, st, [a, b, c, d]) == Next(codes, Run(codes, st, [a, b, c]), d) by {
      assert [a, b, c] + [d] == [a, b, c, d];
      RunAppends(codes, st, [a, b, c], d);
    }
    assert [a, b, c, d] + [e] == [a, b, c, d, e];
    RunAppends(codes, st, [a, b, c, d], e);
  }

  // ---------------------------------------------------------------- the service

  /** The exported functions, statement by statement; the ghost fields are the history of Next. */
  class MfaService {
    const codes: Codes
    var users: map<string, User>
    var redis: Redis
    ghost var attempts: map<nat, Attempt>
    ghost var locks: map<string, nat>
    ghost var issued: map<string, Record>
    ghost var offered: set<(string, string)>
    ghost var admissions: seq<Admission>
    ghost var log: seq<Completion>

    constructor (codes: Codes, users: map<string, User>)
      ensures this.codes == codes && Now() == Initial(users)
    {
      this.codes, this.users := codes, users;
      redis := Redis(map[], map[], map[], map[], map[], map[], map[]);
      attempts, locks, issued, offered, admissions, log := map[], map[], map[], {}, [], [];
    }

    ghost function Now(): State
      reads this
    {
      State(users, redis, attempts, locks, issued, offered, admissions, log)
    }

    /** issueMfaTicket for a user row just read; the token's digest is new. */
    method IssueMfaTicket(digest: string, userId: string, context: Context, onsite: bool, now: int)
      requires userId in users && digest !in issued
      modifies this
      ensures Now() == Issued(old(Now()), digest, userId, context, onsite, now)
      ensures digest in redis.tickets && redis.tickets[digest].expiresAt == now + 300_000
      ensures
        var u, ticket := users[userId], redis.tickets[digest].value;
        && ticket.userId == userId && ticket.context == context && ticket.onsite == onsite
        && ticket.expiresAt == now + 300_000
        && ticket.snapshot == Sha256(u.passwordHash, u.email, u.mfaEnabled, u.mfaMethods, u.totpEnabled, u.totpSecret,
                                     u.mfaRevision)
      ensures ReadTicket(redis, digest, context, now) == Some(issued[digest])
    {
      var record := Record(userId, context, SnapshotOf(users[userId]), onsite, now + MFA_TTL_MS);
      redis := redis.(tickets := redis.tickets[digest := Entry(record, now + MFA_TTL_MS)]);
      issued := issued[digest := record];
    }

    /** readMfaTicket */
    method ReadMfaTicket(ghost id: nat, digest: string, context: Context, goal: Goal, now: int)
      returns (record: Option<Record>)
      requires id !in attempts
      modifies this`attempts
      ensures Now() == LoadedBy(old(Now()), id, digest, context, goal, now)
      ensures record == ReadTicket(redis, digest, context, now)
      ensures record.Some? <==>
        && digest in redis.tickets && now < redis.tickets[digest].expiresAt
        && now < redis.tickets[digest].value.expiresAt && redis.tickets[digest].value.context == context
      ensures record.Some? ==> record.value == redis.tickets[digest].value
    {
      if digest !in redis.tickets || redis.tickets[digest].expiresAt <= now { return None; }
      var found := redis.tickets[digest].value;
      if found.expiresAt <= now || found.context != context { return None; }
      attempts := attempts[id := Attempt(digest, found, goal, Loaded, None)];
      record := Some(found);
    }

    /** readOnsiteEvidence; it throws where `admitted` is None. */
    method ReadOnsiteEvidence(ghost id: nat, attempt: Attempt, now: int) returns (admitted: Option<Attempt>)
      requires id in attempts && attempts[id] == attempt && attempt.phase.Loaded? && UsesOnsiteEvidence(attempt)
      modifies this`redis, this`attempts
      ensures Now() == Counted(old(Now()), id, now)
      ensures admitted.Some? <==> attempts[id].phase.Admitted?
      ensures admitted.Some? ==> admitted.value == attempts[id] && admitted.value.onsiteRaw.Some?
      ensures admitted.Some? <==>
        && HitsInWindow(old(redis.pollCounters), attempt.digest, now) < 300
        && attempt.digest in redis.onsites && now < redis.onsites[attempt.digest].expiresAt
      ensures admitted.Some? ==> admitted.value.onsiteRaw.value == redis.onsites[attempt.digest].value
      ensures attempt.digest in redis.pollCounters
              && redis.pollCounters[attempt.digest].count
                 == HitsInWindow(old(redis.pollCounters), attempt.digest, now) + 1
    {
      attempts := attempts[id := attempt.(phase := Finished)];
      var polls := Hit(CounterAt(redis.pollCounters, attempt.digest), MFA_TTL_MS, now);
      redis := redis.(pollCounters := redis.pollCounters[attempt.digest := polls]);
      if polls.count > ONSITE_POLLS { return None; }
      var raw := Get(redis.onsites, attempt.digest, now);
      if raw.None? { return None; }
      admitted := Some(attempt.(phase := Admitted, onsiteRaw := raw));
      attempts := attempts[id := admitted.value];
    }

    /** countMfaAttempt; it throws where `admitted` is None. */
    method CountMfaAttempt(ghost id: nat, attempt: Attempt, now: int) returns (admitted: Option<Attempt>)
      requires id in attempts && attempts[id] == attempt && attempt.phase.Loaded? && !UsesOnsiteEvidence(attempt)
      modifies this`redis, this`attempts, this`admissions
      ensures Now() == Counted(old(Now()), id, now)
      ensures admitted.Some? <==> attempts[id].phase.Admitted?
      ensures admitted.Some? ==> admitted.value == attempts[id]
      ensures
        var user, ticket := HitsInWindow(old(redis.userCounters), attempt.record.userId, now),
                            HitsInWindow(old(redis.ticketCounters), attempt.digest, now);
        && (admitted.Some? <==> user < 20 && ticket < 5)
        && attempt.record.userId in redis.userCounters && redis.userCounters[attempt.record.userId].count == user + 1
        && (if user >= 20 then redis.ticketCounters == old(redis.ticketCounters)
            else attempt.digest in redis.ticketCounters && redis.ticketCounters[attempt.digest].count == ticket + 1)
    {
      attempts := attempts[id := attempt.(phase := Finished)];
      var forUser := Hit(CounterAt(redis.userCounters, attempt.record.userId), USER_WINDOW_MS, now);
      redis := redis.(userCounters := redis.userCounters[attempt.record.userId := forUser]);
      if forUser.count > ATTEMPTS_PER_USER { return None; }
      var forTicket := Hit(CounterAt(redis.ticketCounters, attempt.digest), MFA_TTL_MS, now);
      redis := redis.(ticketCounters := redis.ticketCounters[attempt.digest := forTicket]);
      if forTicket.count > ATTEMPTS_PER_TICKET { return None; }
      admitted := Some(attempt.(phase := Admitted));
      admissions := admissions + [Admission(attempt.digest, now)];
      attempts := attempts[id := admitted.value];
    }

    /** consumeMfaTicket */
    method ConsumeMfaTicket(digest: string, record: Record, mail: Option<MailRaw>, onsite: Option<OnsiteRaw>, now: int)
      returns (consumed: bool)
      modifies this`redis
      ensures consumed <==>
        RemainingSeconds(record, now) >= 1 && Consumable(old(redis), digest, record, mail, onsite, now)
      ensures redis == if consumed then Consumed(old(redis), digest) else old(redis)
      ensures consumed ==> forall other, m, o :: !Consumable(redis, digest, other, m, o, now)
    {
      if RemainingSeconds(record, now) < 1 { return false; }
      if Get(redis.tickets, digest, now) != Some(record) { return false; }
      if mail.Some? && Get(redis.mails, digest, now) != mail { return false; }
      if onsite.Some? && Get(redis.onsites, digest, now) != onsite { return false; }
      redis := Consumed(redis, digest);
      consumed := true;
    }

    /** withMfaUser up to the consume, once the row lock is held; a throw ends the attempt and releases the lock. */
    method CheckUnderLock(ghost id: nat, attempt: Attempt, now: int) returns (verified: Option<Attempt>)
      requires id in attempts && attempts[id] == attempt && attempt.phase.Admitted? && attempt.record.userId !in locks
      modifies this`attempts, this`locks
      ensures Now() == CheckedBy(codes, old(Now()), id, now)
      ensures verified.Some? <==> attempts[id].phase.Verified?
      ensures verified.Some? ==> verified.value == attempts[id] && Sound(verified.value)
      ensures verified.Some? <==>
        attempt.record.userId in users && Deserves(codes, redis, users[attempt.record.userId], attempt, now)
    {
      attempts := attempts[id := attempt.(phase := Finished)];
      if attempt.record.userId !in users { return None; }
      var user := users[attempt.record.userId];
      var evidence := Checked(codes, redis, user, attempt, now);
      CheckedExactly(codes, redis, user, attempt, now);
      if evidence.None? { return None; }
      CheckedIsSound(codes, redis, user, attempt, now);
      verified := Some(attempt.(phase := Verified(user, evidence.value, now)));
      locks := locks[attempt.record.userId := id];
      attempts := attempts[id := verified.value];
    }

    /** The consume, the row update and the commit of verifyMfaChallenge and changeMfaFactor. */
    method ConsumeAndUpdate(ghost id: nat, attempt: Attempt, completes: bool, now: int) returns (completed: bool)
      requires id in attempts && attempts[id] == attempt && attempt.phase.Verified?
      modifies this`users, this`redis, this`attempts, this`locks, this`log
      ensures Now() == Committed(old(Now()), id, completes, now)
      ensures completed <==> log != old(log)
      ensures completed && LockInvariant(old(Now())) && TicketInvariant(old(Now())) ==>
        GoodCompletion(issued, log[|old(log)|])
    {
      attempts := attempts[id := attempt.(phase := Finished)];
      locks := locks - {attempt.record.userId};
      var user, evidence := attempt.phase.user, attempt.phase.evidence;
      ghost var held := redis;
      var consumed := ConsumeMfaTicket(attempt.digest, attempt.record, evidence.mail, attempt.onsiteRaw, now);
      if !consumed || !completes { return false; }
      users := users[attempt.record.userId := UpdatedUser(user, attempt.goal, evidence)];
      log := log + [Completion(attempt.digest, attempt.record, attempt.goal, user, evidence, attempt.phase.at,
        Get(held.mails, attempt.digest, now), Get(held.onsites, attempt.digest, now), now)];
      completed := true;
    }
  }
}
