/**
 Device credentials: server/src/auth/device-credential.ts over server/src/auth/device-rotation.ts.

 A row-locked transaction is one atomic step on the tables. `now` is read before the row lock, so
 the clocks of successive steps are in no particular order.
 */
module DeviceCredential {
  import opened Wrappers
  import opened DeviceRotation

  const DEVICE_CREDENTIAL_TTL_MS := 30 * 24 * 60 * 60 * 1000

  datatype Evidence = Evidence(amr: set<string>, revision: nat)

  datatype User = User(role: string, authEpoch: nat, mfaRevision: nat)

  datatype Passkey = Passkey(userId: string, revoked: bool)

  /** A row of device_credentials; its key in the table is the device id. */
  datatype Credential = Credential(
    userId: string,
    rootPasskeyId: string,
    tokenKeyId: string,
    evidence: Evidence,
    authEpoch: nat,
    generation: nat,
    currentHash: SecretHash,
    previousHash: Option<SecretHash>,
    previousValidUntil: Option<int>,
    lastRotationId: Option<string>,
    lastRotatedAt: Option<int>,
    expiresAt: int,
    lastUsedAt: int,
    createdAt: int,
    revokedAt: Option<int>)

  datatype Tables = Tables(
    users: map<string, User>,
    passkeys: map<string, Passkey>,
    credentials: map<string, Credential>)

  datatype Token = Token(deviceId: string, secret: Secret)

  datatype Session = Session(userId: string, role: string, token: Token, expiresAt: int, authEpoch: nat,
      evidence: Evidence)

  function StateOf(id: string, row: Credential): CredentialState {
    CredentialState(id, row.generation, row.currentHash, row.previousHash, row.previousValidUntil,
                    row.lastRotationId, row.lastRotatedAt, row.expiresAt, row.revokedAt)
  }

  // ---------------------------------------------------------------- what each operation does to the tables

  predicate MayIssue(db: Tables, deviceId: string, userId: string, passkeyId: string, evidence: Evidence,
      authEpoch: nat) {
    && userId in db.users
    && LivePasskey(db, passkeyId, userId)
    && "pop" in evidence.amr && "mfa" in evidence.amr
    && evidence.revision == db.users[userId].mfaRevision
    && authEpoch == db.users[userId].authEpoch
    && deviceId !in db.credentials
  }

  predicate LivePasskey(db: Tables, passkeyId: string, userId: string) {
    passkeyId in db.passkeys && db.passkeys[passkeyId].userId == userId && !db.passkeys[passkeyId].revoked
  }

  function NewCredential(db: Tables, keyId: string, deviceId: string, userId: string, passkeyId: string,
                         evidence: Evidence, nonce: nat, now: int): Credential
    requires userId in db.users
  {
    Credential(userId, passkeyId, keyId, evidence, db.users[userId].authEpoch, 0,
               HashOf(deviceId, Random(nonce)), None, None, None, None,
               now + DEVICE_CREDENTIAL_TTL_MS, now, now, None)
  }

  /** The checks made after locking the rows and before the decision. */
  predicate Bound(db: Tables, keyId: string, row: Credential) {
    && row.userId in db.users
    && LivePasskey(db, row.rootPasskeyId, row.userId)
    && row.authEpoch == db.users[row.userId].authEpoch
    && row.evidence.revision == db.users[row.userId].mfaRevision
    && row.tokenKeyId == keyId
  }

  function DecisionFor(db: Tables, keyId: string, id: string, secret: Secret, rotationId: string, now: int): Decision {
    if id !in db.credentials then
      Refuse(CredentialInvalid)
    else if !Bound(db, keyId, db.credentials[id]) then
      Refuse(PasskeyRequired)
    else
      DecideRotation(StateOf(id, db.credentials[id]), secret, rotationId, now)
  }

  function UpdatedRow(row: Credential, decision: Decision, rotationId: string, now: int): Credential {
    match decision
    case Rotate(_, generation, hash, validUntil) =>
      row.(generation := generation, currentHash := hash, previousHash := Some(row.currentHash),
           previousValidUntil := Some(validUntil), lastRotationId := Some(rotationId),
           lastRotatedAt := Some(now), lastUsedAt := now)
    case Refuse(_) => row
    case _ => row.(lastUsedAt := now)
  }

  function RevokeRow(row: Credential, now: int): Credential {
    if row.revokedAt.None? then row.(revokedAt := Some(now)) else row
  }

  function RevokeOwned(credentials: map<string, Credential>, userId: string, now: int): map<string, Credential> {
    map id | id in credentials ::
      if credentials[id].userId == userId then RevokeRow(credentials[id], now) else credentials[id]
  }

  /** One step of a run: an API call, or an event elsewhere that these operations look at. */
  datatype Step =
    | Issue(deviceId: string, userId: string, passkeyId: string, evidence: Evidence, epoch: nat, nonce: nat, now: int)
    | Refresh(token: Token, rotationId: string, now: int)
    | Revoke(userId: string, deviceId: string, now: int)
    | RevokeAll(userId: string, now: int)
    | ChangeFactor(userId: string)
    | AddPasskey(passkeyId: string, userId: string)
    | RevokePasskey(passkeyId: string)

  function Apply(db: Tables, keyId: string, step: Step): Tables {
    match step
    case Issue(id, userId, passkeyId, evidence, epoch, nonce, now) =>
      if MayIssue(db, id, userId, passkeyId, evidence, epoch) then
        db.(credentials := db.credentials[id := NewCredential(db, keyId, id, userId, passkeyId, evidence, nonce, now)])
      else
        db
    case Refresh(Token(id, secret), rotationId, now) =>
      var decision := DecisionFor(db, keyId, id, secret, rotationId, now);
      if decision.Refuse? then
        db
      else
        db.(credentials := db.credentials[id := UpdatedRow(db.credentials[id], decision, rotationId, now)])
    case Revoke(userId, id, now) =>
      if id in db.credentials && db.credentials[id].userId == userId then
        db.(credentials := db.credentials[id := RevokeRow(db.credentials[id], now)])
      else
        db
    case RevokeAll(userId, now) =>
      db.(credentials := RevokeOwned(db.credentials, userId, now), users := AdvanceUser(db.users, userId, 1, 1))
    case ChangeFactor(userId) =>
      db.(users := AdvanceUser(db.users, userId, 0, 1))
    case AddPasskey(passkeyId, userId) =>
      if passkeyId in db.passkeys then db
      else db.(passkeys := db.passkeys[passkeyId := Passkey(userId, false)])
    case RevokePasskey(passkeyId) =>
      if passkeyId in db.passkeys then
        db.(passkeys := db.passkeys[passkeyId := db.passkeys[passkeyId].(revoked := true)])
      else
        db
  }

  function AdvanceUser(users: map<string, User>, userId: string, epochs: nat, revisions: nat): map<string, User> {
    if userId in users then
      users[userId := users[userId].(authEpoch := users[userId].authEpoch + epochs,
                                     mfaRevision := users[userId].mfaRevision + revisions)]
    else
      users
  }

  function Run(db: Tables, keyId: string, trace: seq<Step>): Tables
    decreases |trace|
  {
    if trace == [] then db else Run(Apply(db, keyId, trace[0]), keyId, trace[1..])
  }

  // ---------------------------------------------------------------- what every step keeps

  ghost predicate Valid(db: Tables) {
    forall id :: id in db.credentials ==> ValidRow(db, id)
  }

  ghost predicate ValidRow(db: Tables, id: string)
    requires id in db.credentials
  {
    var row := db.credentials[id];
    && Consistent(StateOf(id, row))
    && row.expiresAt == row.createdAt + DEVICE_CREDENTIAL_TTL_MS
    && row.rootPasskeyId in db.passkeys && db.passkeys[row.rootPasskeyId].userId == row.userId
    && row.userId in db.users
    && row.authEpoch <= db.users[row.userId].authEpoch
    && row.evidence.revision <= db.users[row.userId].mfaRevision
  }

  /** How a row may differ from itself earlier in a run. */
  ghost predicate Evolves(a: Credential, b: Credential) {
    && b.(generation := a.generation, currentHash := a.currentHash, previousHash := a.previousHash,
          previousValidUntil := a.previousValidUntil, lastRotationId := a.lastRotationId,
          lastRotatedAt := a.lastRotatedAt, lastUsedAt := a.lastUsedAt, revokedAt := a.revokedAt) == a
    && (a.revokedAt.Some? ==> b.revokedAt == a.revokedAt)
    && a.generation <= b.generation
    && (b.generation == a.generation ==> SameSecrets(a, b))
    && (b.generation == a.generation + 1 ==> b.previousHash == Some(a.currentHash))
    && (b.generation > a.generation ==>
      && b.lastRotatedAt.Some?
      && b.lastRotatedAt.value < b.expiresAt
      && (a.lastRotatedAt.Some? ==>
        a.lastRotatedAt.value + ROTATION_GRACE_MS * (b.generation - a.generation) <= b.lastRotatedAt.value))
  }

  ghost predicate SameSecrets(a: Credential, b: Credential) {
    && b.currentHash == a.currentHash && b.previousHash == a.previousHash
    && b.previousValidUntil == a.previousValidUntil
    && b.lastRotationId == a.lastRotationId && b.lastRotatedAt == a.lastRotatedAt
  }

  ghost predicate PasskeysEvolve(a: map<string, Passkey>, b: map<string, Passkey>) {
    forall p :: p in a ==> p in b && b[p].userId == a[p].userId && (a[p].revoked ==> b[p].revoked)
  }

  /** Rows stay, and change only as Evolves allows; epochs and revisions never decrease; passkeys stay revoked. */
  ghost predicate TablesEvolve(a: Tables, b: Tables) {
    && (forall id :: id in a.credentials ==> id in b.credentials && Evolves(a.credentials[id], b.credentials[id]))
    && (forall u :: u in a.users ==>
      && u in b.users
      && a.users[u].authEpoch <= b.users[u].authEpoch && a.users[u].mfaRevision <= b.users[u].mfaRevision)
    && PasskeysEvolve(a.passkeys, b.passkeys)
  }

  /** The only ways a step touches an existing row. */
  ghost predicate RowStep(db: Tables, keyId: string, step: Step, id: string, row: Credential, next: Credential) {
    || next == row
    || ((step.Revoke? || step.RevokeAll?) && next == RevokeRow(row, step.now))
    || (step.Refresh? && step.token.deviceId == id && Bound(db, keyId, row)
        && var decision := DecideRotation(StateOf(id, row), step.token.secret, step.rotationId, step.now);
           !decision.Refuse? && next == UpdatedRow(row, decision, step.rotationId, step.now))
  }

  lemma StepOnRow(db: Tables, keyId: string, step: Step, id: string)
    requires id in db.credentials
    ensures id in Apply(db, keyId, step).credentials
    ensures RowStep(db, keyId, step, id, db.credentials[id], Apply(db, keyId, step).credentials[id])
  {
  }

  lemma StepOnUsers(db: Tables, keyId: string, step: Step)
    ensures forall u :: u in db.users ==>
      && u in Apply(db, keyId, step).users
      && db.users[u].authEpoch <= Apply(db, keyId, step).users[u].authEpoch
      && db.users[u].mfaRevision <= Apply(db, keyId, step).users[u].mfaRevision
    ensures PasskeysEvolve(db.passkeys, Apply(db, keyId, step).passkeys)
  {
  }

  lemma RowStepEvolves(db: Tables, keyId: string, step: Step, id: string, row: Credential, next: Credential)
    requires Consistent(StateOf(id, row)) && RowStep(db, keyId, step, id, row, next)
    ensures Consistent(StateOf(id, next)) && Evolves(row, next)
  {
  }

  lemma {:induction false} StepKeepsValid(db: Tables, keyId: string, step: Step)
    requires Valid(db)
    ensures Valid(Apply(db, keyId, step))
  {
    var next := Apply(db, keyId, step);
    StepOnUsers(db, keyId, step);
    forall id | id in next.credentials ensures ValidRow(next, id) {
      if id in db.credentials {
        assert ValidRow(db, id);
        StepOnRow(db, keyId, step, id);
        RowStepEvolves(db, keyId, step, id, db.credentials[id], next.credentials[id]);
      }
    }
  }

  lemma {:induction false} StepEvolves(db: Tables, keyId: string, step: Step)
    requires Valid(db)
    ensures TablesEvolve(db, Apply(db, keyId, step))
  {
    var next := Apply(db, keyId, step);
    StepOnUsers(db, keyId, step);
    forall id | id in db.credentials
      ensures id in next.credentials && Evolves(db.credentials[id], next.credentials[id]) {
      assert ValidRow(db, id);
      StepOnRow(db, keyId, step, id);
      RowStepEvolves(db, keyId, step, id, db.credentials[id], next.credentials[id]);
    }
  }

  lemma EvolvesTransitively(a: Credential, b: Credential, c: Credential)
    requires Evolves(a, b) && Evolves(b, c)
    ensures Evolves(a, c)
  {
  }

  lemma {:induction false} RunEvolves(db: Tables, keyId: string, trace: seq<Step>)
    requires Valid(db)
    ensures Valid(Run(db, keyId, trace))
    ensures TablesEvolve(db, Run(db, keyId, trace))
    decreases |trace|
  {
    if trace != [] {
      var next := Apply(db, keyId, trace[0]);
      var last := Run(next, keyId, trace[1..]);
      StepKeepsValid(db, keyId, trace[0]);
      StepEvolves(db, keyId, trace[0]);
      RunEvolves(next, keyId, trace[1..]);
      forall id | id in db.credentials
        ensures id in last.credentials && Evolves(db.credentials[id], last.credentials[id])
      {
        EvolvesTransitively(db.credentials[id], next.credentials[id], last.credentials[id]);
      }
    }
  }

  /** Every run that starts without device credentials. */
  lemma ReachableRowsConsistent(db: Tables, keyId: string, trace: seq<Step>, id: string)
    requires db.credentials == map[]
    requires id in Run(db, keyId, trace).credentials
    ensures Consistent(StateOf(id, Run(db, keyId, trace).credentials[id]))
  {
    RunEvolves(db, keyId, trace);
  }

  // ---------------------------------------------------------------- resends

  ghost predicate RefreshesBefore(trace: seq<Step>, id: string, limit: int) {
    forall i :: 0 <= i < |trace| && trace[i].Refresh? && trace[i].token.deviceId == id ==> trace[i].now < limit
  }

  /** Requests whose clocks fall inside the grace window leave the generation alone, whatever they present. */
  lemma {:induction false} NoAdvanceWithinGrace(db: Tables, keyId: string, trace: seq<Step>, id: string)
    requires Valid(db) && id in db.credentials && db.credentials[id].lastRotatedAt.Some?
    requires RefreshesBefore(trace, id, db.credentials[id].lastRotatedAt.value + ROTATION_GRACE_MS)
    ensures id in Run(db, keyId, trace).credentials
    ensures Run(db, keyId, trace).credentials[id].generation == db.credentials[id].generation
    ensures SameSecrets(db.credentials[id], Run(db, keyId, trace).credentials[id])
    decreases |trace|
  {
    if trace != [] {
      var next := Apply(db, keyId, trace[0]);
      StepKeepsValid(db, keyId, trace[0]);
      StepEvolves(db, keyId, trace[0]);
      StepOnRow(db, keyId, trace[0], id);
      assert SameSecrets(db.credentials[id], next.credentials[id]);
      assert RefreshesBefore(trace[1..], id, db.credentials[id].lastRotatedAt.value + ROTATION_GRACE_MS);
      NoAdvanceWithinGrace(next, keyId, trace[1..], id);
    }
  }

  /**
   A rotation whose reply was lost, then any run inside its grace window (further resends included):
   the resend gets the very secret the lost reply carried, and only lastUsedAt changes.
   */
  lemma ResendReturnsLostReply(db: Tables, keyId: string, token: Token, rotationId: string, now: int,
                               trace: seq<Step>, later: int)
    requires Valid(db)
    requires DecisionFor(db, keyId, token.deviceId, token.secret, rotationId, now).Rotate?
    requires RefreshesBefore(trace, token.deviceId, now + ROTATION_GRACE_MS) && later < now + ROTATION_GRACE_MS
    ensures
      var lost := DecisionFor(db, keyId, token.deviceId, token.secret, rotationId, now);
      var last := Run(Apply(db, keyId, Refresh(token, rotationId, now)), keyId, trace);
      && token.deviceId in last.credentials
      && var row := last.credentials[token.deviceId];
      (Bound(last, keyId, row) && row.revokedAt.None? && later < row.expiresAt ==>
        var decision := DecisionFor(last, keyId, token.deviceId, token.secret, rotationId, later);
        if rotationId == "" then
          decision == Refuse(RotationConflict)
        else
          && decision == Replay(lost.secret)
          && Apply(last, keyId, Refresh(token, rotationId, later))
             == last.(credentials := last.credentials[token.deviceId := row.(lastUsedAt := later)]))
  {
    var after := Apply(db, keyId, Refresh(token, rotationId, now));
    StepKeepsValid(db, keyId, Refresh(token, rotationId, now));
    NoAdvanceWithinGrace(after, keyId, trace, token.deviceId);
  }

  // ---------------------------------------------------------------- which secrets are recognised

  /**
   A secret that was current at some moment, any run later: on a live row it is refused as unknown
   exactly when two or more rotations have happened, or one has and its grace is over. So an older
   generation stays refused for ever, since generations never decrease (RunEvolves).
   */
  lemma {:induction false} RecognisedWhileCurrentOrPrevious(db: Tables, keyId: string, id: string, secret: Secret,
      trace: seq<Step>,
                                         rotationId: string, now: int)
    requires Valid(db) && id in db.credentials && HashOf(id, secret) == db.credentials[id].currentHash
    ensures id in Run(db, keyId, trace).credentials
    ensures
      var born, row := db.credentials[id].generation, Run(db, keyId, trace).credentials[id];
      row.revokedAt.None? && now < row.expiresAt ==>
        (DecideRotation(StateOf(id, row), secret, rotationId, now) == Refuse(PasskeyRequired)
         <==> !(row.generation == born || (row.generation == born + 1 && PreviousValid(row, now))))
  {
    RunEvolves(db, keyId, trace);
    assert ValidRow(db, id) && ValidRow(Run(db, keyId, trace), id);
  }

  /** A recognised secret is one of the two the row is consistent with; nothing else is ever recognised. */
  lemma OnlyTwoSecretsRecognised(state: CredentialState, secret: Secret, rotationId: string, now: int)
    requires Consistent(state) && state.revokedAt.None? && now < state.expiresAt
    requires DecideRotation(state, secret, rotationId, now) != Refuse(PasskeyRequired)
    ensures
      || (GenerationOf(secret) == state.generation && secret == state.currentHash.secret)
      || (GenerationOf(secret) + 1 == state.generation && secret == state.previousHash.value.secret
          && now < state.lastRotatedAt.value + ROTATION_GRACE_MS)
  {
  }

  ghost predicate PreviousValid(row: Credential, now: int) {
    row.previousValidUntil.Some? && now < row.previousValidUntil.value
  }

  function ResolveSession(db: Tables, token: Token, now: int): Option<(string, string)> {
    if token.deviceId !in db.credentials then None else
    var row := db.credentials[token.deviceId];
    var presentedHash := HashOf(token.deviceId, token.secret);
    var matchesCurrent := presentedHash == row.currentHash;
    var matchesPrevious := row.previousHash.Some? && row.previousValidUntil.Some?
                           && row.previousValidUntil.value > now && presentedHash == row.previousHash.value;
    if matchesCurrent || matchesPrevious then Some((row.userId, token.deviceId)) else None
  }

  /** Logout recognises the secrets that rotation recognises, also on revoked and expired rows. */
  lemma ResolveRecognisesTheSameSecrets(db: Tables, token: Token, rotationId: string, now: int)
    requires token.deviceId in db.credentials
    ensures
      var row := db.credentials[token.deviceId];
      var live := StateOf(token.deviceId, row).(revokedAt := None, expiresAt := now + 1);
      ResolveSession(db, token, now)
      == (if DecideRotation(live, token.secret, rotationId, now) == Refuse(PasskeyRequired)
          then None else Some((row.userId, token.deviceId)))
  {
  }

  // ---------------------------------------------------------------- concurrent requests

  ghost predicate AllPresent(trace: seq<Step>, id: string, secret: Secret) {
    forall i :: 0 <= i < |trace| && trace[i].Refresh? && trace[i].token.deviceId == id ==>
      trace[i].token.secret == secret
  }

  /** Requests that all hold the same current secret, in any lock order and with any clocks, advance at most once. */
  lemma {:induction false} SameSecretAdvancesOnce(db: Tables, keyId: string, id: string, secret: Secret,
      trace: seq<Step>)
    requires Valid(db) && id in db.credentials && AllPresent(trace, id, secret)
    requires GenerationOf(secret) <= db.credentials[id].generation <= GenerationOf(secret) + 1
    ensures id in Run(db, keyId, trace).credentials
    ensures Run(db, keyId, trace).credentials[id].generation <= GenerationOf(secret) + 1
    decreases |trace|
  {
    if trace != [] {
      var next := Apply(db, keyId, trace[0]);
      StepKeepsValid(db, keyId, trace[0]);
      StepOnRow(db, keyId, trace[0], id);
      assert ValidRow(db, id);
      assert AllPresent(trace[1..], id, secret);
      assert next.credentials[id].generation <= GenerationOf(secret) + 1;
      SameSecretAdvancesOnce(next, keyId, id, secret, trace[1..]);
    }
  }

  /**
   The reply to each of those requests on a live row: the winner rotates, and inside the grace window no loser is
   refused as unknown.
   */
  lemma SameSecretReplies(db: Tables, keyId: string, id: string, secret: Secret, trace: seq<Step>, rotationId: string,
      now: int)
    requires Valid(db) && id in db.credentials && AllPresent(trace, id, secret)
    requires HashOf(id, secret) == db.credentials[id].currentHash
    ensures id in Run(db, keyId, trace).credentials
    ensures
      var row := Run(db, keyId, trace).credentials[id];
      var decision := DecideRotation(StateOf(id, row), secret, rotationId, now);
      row.revokedAt.None? && now < row.expiresAt ==>
        if row.generation == db.credentials[id].generation then
          decision.Keep? || decision.Rotate?
        else if !PreviousValid(row, now) then
          decision == Refuse(PasskeyRequired)
        else if rotationId != "" && row.lastRotationId == Some(rotationId) then
          decision == Replay(row.currentHash.secret)
        else
          decision == Refuse(RotationConflict)
  {
    assert ValidRow(db, id);
    RunEvolves(db, keyId, trace);
    SameSecretAdvancesOnce(db, keyId, id, secret, trace);
    assert ValidRow(Run(db, keyId, trace), id);
  }

  // ---------------------------------------------------------------- how often a credential can rotate

  /** Rotations after a first one fit into what was left of the fixed lifetime, however the clocks are ordered. */
  lemma {:induction false} RotationsFitTheLifetime(db: Tables, keyId: string, trace: seq<Step>, id: string)
    requires Valid(db) && id in db.credentials && db.credentials[id].generation > 0
    ensures id in Run(db, keyId, trace).credentials
    ensures
      var row, last := db.credentials[id], Run(db, keyId, trace).credentials[id];
      && last.expiresAt == row.expiresAt
      && (last.generation > row.generation ==>
        ROTATION_GRACE_MS * (last.generation - row.generation) < row.expiresAt - row.lastRotatedAt.value)
  {
    RunEvolves(db, keyId, trace);
    assert ValidRow(db, id);
  }

  /** If the first rotation is not before creation, a 30-day credential rotates at most 86400 times. */
  lemma {:induction false} ThirtyDayRotationBudget(db: Tables, keyId: string, trace: seq<Step>, id: string)
    requires Valid(db) && id in db.credentials && db.credentials[id].generation == 1
    requires db.credentials[id].createdAt <= db.credentials[id].lastRotatedAt.value
    ensures id in Run(db, keyId, trace).credentials
    ensures Run(db, keyId, trace).credentials[id].generation <= 86400
  {
    RunEvolves(db, keyId, trace);
    RotationsFitTheLifetime(db, keyId, trace, id);
    assert ValidRow(db, id);
  }

  // ---------------------------------------------------------------- revocation, logout-all and factor changes

  /** The events after which the credential `id` must not be usable again. */
  ghost predicate Invalidates(step: Step, id: string, row: Credential) {
    || (step.Revoke? && step.userId == row.userId && step.deviceId == id)
    || (step.RevokeAll? && step.userId == row.userId)
    || (step.ChangeFactor? && step.userId == row.userId)
    || (step.RevokePasskey? && step.passkeyId == row.rootPasskeyId)
  }

  ghost predicate Usable(db: Tables, keyId: string, id: string) {
    id in db.credentials && Bound(db, keyId, db.credentials[id]) && db.credentials[id].revokedAt.None?
  }

  lemma RefreshKeepsUsable(db: Tables, keyId: string, id: string, token: Token, rotationId: string, now: int)
    requires Usable(db, keyId, id)
    ensures Usable(Apply(db, keyId, Refresh(token, rotationId, now)), keyId, id)
  {
  }

  lemma StepKeepsUsable(db: Tables, keyId: string, id: string, step: Step)
    requires Valid(db) && Usable(db, keyId, id)
    ensures Usable(Apply(db, keyId, step), keyId, id) <==> !Invalidates(step, id, db.credentials[id])
  {
    match step
    case Refresh(token, rotationId, now) => RefreshKeepsUsable(db, keyId, id, token, rotationId, now);
    case RevokeAll(_, _) =>
    case _ =>
  }

  /** An unusable credential stays unusable: epochs and revisions only grow, and revocations are kept. */
  lemma {:induction false} UnusableForEver(db: Tables, keyId: string, id: string, trace: seq<Step>)
    requires Valid(db) && id in db.credentials && !Usable(db, keyId, id)
    ensures !Usable(Run(db, keyId, trace), keyId, id)
  {
    RunEvolves(db, keyId, trace);
    assert ValidRow(db, id);
  }

  ghost predicate NoneUsable(db: Tables, keyId: string, userId: string) {
    forall id :: id in db.credentials && db.credentials[id].userId == userId ==> !Usable(db, keyId, id)
  }

  lemma LogoutAllDisables(db: Tables, keyId: string, userId: string, now: int)
    ensures NoneUsable(Apply(db, keyId, RevokeAll(userId, now)), keyId, userId)
  {
  }

  /** From any moment at which a credential is usable, it stays so exactly until the first invalidating event. */
  lemma {:induction false} UsableUntilInvalidated(db: Tables, keyId: string, id: string, trace: seq<Step>)
    requires Valid(db) && Usable(db, keyId, id)
    ensures Usable(Run(db, keyId, trace), keyId, id)
            <==> forall i :: 0 <= i < |trace| ==> !Invalidates(trace[i], id, db.credentials[id])
    decreases |trace|
  {
    if trace != [] {
      var next := Apply(db, keyId, trace[0]);
      StepKeepsValid(db, keyId, trace[0]);
      StepEvolves(db, keyId, trace[0]);
      StepKeepsUsable(db, keyId, id, trace[0]);
      assert forall i :: 0 < i < |trace| ==> trace[1..][i - 1] == trace[i];
      if Usable(next, keyId, id) {
        UsableUntilInvalidated(next, keyId, id, trace[1..]);
        assert forall step :: Invalidates(step, id, next.credentials[id]) == Invalidates(step, id, db.credentials[id]);
        if forall i :: 0 <= i < |trace| ==> !Invalidates(trace[i], id, db.credentials[id]) {
          forall i | 0 <= i < |trace[1..]| ensures !Invalidates(trace[1..][i], id, next.credentials[id]) {
            assert trace[1..][i] == trace[i + 1];
          }
        }
      } else {
        UnusableForEver(next, keyId, id, trace[1..]);
      }
    }
  }

  /** A refresh succeeds only on a usable, unexpired row, and the current secret always does there. */
  lemma RefreshOnUsable(db: Tables, keyId: string, id: string, secret: Secret, rotationId: string, now: int)
    requires id in db.credentials && ValidRow(db, id)
    ensures
      var open := Usable(db, keyId, id) && now < db.credentials[id].expiresAt;
      && (!DecisionFor(db, keyId, id, secret, rotationId, now).Refuse? ==> open)
      && (open && secret == db.credentials[id].currentHash.secret ==>
            !DecisionFor(db, keyId, id, secret, rotationId, now).Refuse?)
  {
  }

  /**
   After issuance, whatever runs in between: any refresh that succeeds saw no invalidating event and
   the original lifetime still open, and under those two conditions the current secret always succeeds.
   */
  lemma RefreshExactlyUntilInvalidated(db: Tables, keyId: string, issue: Step, trace: seq<Step>,
                                       secret: Secret, rotationId: string, now: int)
    requires Valid(db) && issue.Issue?
    requires MayIssue(db, issue.deviceId, issue.userId, issue.passkeyId, issue.evidence, issue.epoch)
    ensures
      var id, issued := issue.deviceId, Apply(db, keyId, issue);
      var last := Run(issued, keyId, trace);
      var open := now < issue.now + DEVICE_CREDENTIAL_TTL_MS
                  && forall i :: 0 <= i < |trace| ==> !Invalidates(trace[i], id, issued.credentials[id]);
      && id in last.credentials
      && (!DecisionFor(last, keyId, id, secret, rotationId, now).Refuse? ==> open)
      && (open && secret == last.credentials[id].currentHash.secret ==>
            !DecisionFor(last, keyId, id, secret, rotationId, now).Refuse?)
  {
    var issued := Apply(db, keyId, issue);
    StepKeepsValid(db, keyId, issue);
    UsableUntilInvalidated(issued, keyId, issue.deviceId, trace);
    RunEvolves(issued, keyId, trace);
    assert ValidRow(Run(issued, keyId, trace), issue.deviceId);
    RefreshOnUsable(Run(issued, keyId, trace), keyId, issue.deviceId, secret, rotationId, now);
  }

  // ---------------------------------------------------------------- what each operation does, field by field

  /** The user stands as at issuance, the passkey lives, and the server's session key is the one of issuance. */
  ghost predicate Stands(db: Tables, keyId: string, row: Credential) {
    && row.userId in db.users && row.rootPasskeyId in db.passkeys
    && db.passkeys[row.rootPasskeyId] == Passkey(row.userId, false)
    && row.authEpoch == db.users[row.userId].authEpoch && row.evidence.revision == db.users[row.userId].mfaRevision
    && row.tokenKeyId == keyId
  }

  /** The secret just replaced, within thirty seconds of its replacement. */
  ghost predicate JustReplaced(row: Credential, secret: Secret, now: int) {
    && row.previousHash.Some? && secret == row.previousHash.value.secret
    && row.lastRotatedAt.Some? && now < row.lastRotatedAt.value + 30_000
  }

  /** The row rotates for the first time at once, and again when thirty seconds have passed. */
  ghost predicate MayAdvance(row: Credential, now: int) {
    row.generation == 0 || (row.lastRotatedAt.Some? && row.lastRotatedAt.value + 30_000 <= now)
  }

  /** Why a refresh is refused, with the order of the reasons; None where it is not. */
  ghost function Refusal(db: Tables, keyId: string, token: Token, rotationId: string, now: int): Option<ErrorCode> {
    if token.deviceId !in db.credentials then Some(CredentialInvalid) else
    var row := db.credentials[token.deviceId];
    if !Stands(db, keyId, row) then Some(PasskeyRequired)
    else if row.revokedAt.Some? then Some(CredentialRevoked)
    else if row.expiresAt <= now then Some(CredentialExpired)
    else if token.secret == row.currentHash.secret then None
    else if !JustReplaced(row, token.secret, now) then Some(PasskeyRequired)
    else if rotationId != "" && row.lastRotationId == Some(rotationId) then None
    else Some(RotationConflict)
  }

  /** What a refresh makes of the tables, and which secret or error it answers with. */
  ghost predicate RefreshOutcome(db: Tables, keyId: string, token: Token, rotationId: string, now: int, next: Tables,
      reply: Result<Secret, ErrorCode>) {
    var refusal := Refusal(db, keyId, token, rotationId, now);
    if refusal.Some? then reply == Err(refusal.value) && next == db else
    var id, row := token.deviceId, db.credentials[token.deviceId];
    && id in next.credentials && next == db.(credentials := db.credentials[id := next.credentials[id]])
    && (if token.secret == row.currentHash.secret && MayAdvance(row, now) then
          var derived := Derived(id, row.generation + 1, rotationId);
          && reply == Ok(derived)
          && next.credentials[id] == row.(generation := row.generation + 1, currentHash := HashOf(id, derived),
               previousHash := Some(row.currentHash), previousValidUntil := Some(now + 30_000),
               lastRotationId := Some(rotationId), lastRotatedAt := Some(now), lastUsedAt := now)
        else
          && reply == Ok(row.currentHash.secret)
          && next.credentials[id] == row.(lastUsedAt := now))
  }

  function ReplyOf(decision: Decision): Result<Secret, ErrorCode> {
    if decision.Refuse? then Err(decision.code) else Ok(decision.secret)
  }

  /** The one place where every branch of a refresh is told by the fields of the row alone. */
  lemma RefreshExactly(db: Tables, keyId: string, token: Token, rotationId: string, now: int)
    requires Valid(db)
    ensures
      RefreshOutcome(db, keyId, token, rotationId, now, Apply(db, keyId, Refresh(token, rotationId, now)),
                ReplyOf(DecisionFor(db, keyId, token.deviceId, token.secret, rotationId, now)))
  {
    if token.deviceId in db.credentials { assert ValidRow(db, token.deviceId); }
  }

  /**
   A row advances in a refresh with the current secret exactly when it is fresh or its last rotation is thirty seconds
   old; its first rotation does happen.
   */
  lemma AdvancesExactly(db: Tables, keyId: string, id: string, rotationId: string, now: int)
    requires Valid(db) && id in db.credentials && Stands(db, keyId, db.credentials[id])
    requires db.credentials[id].revokedAt.None? && now < db.credentials[id].expiresAt
    ensures
      var row := db.credentials[id];
      var next := Apply(db, keyId, Refresh(Token(id, row.currentHash.secret), rotationId, now));
      && id in next.credentials
      && (next.credentials[id].generation == row.generation + 1
          <==> row.generation == 0 || row.lastRotatedAt.value + 30_000 <= now)
      && (next.credentials[id].generation == row.generation + 1 ==>
            && next.credentials[id].previousHash == Some(row.currentHash)
            && next.credentials[id].lastRotationId == Some(rotationId)
            && next.credentials[id].lastRotatedAt == Some(now)
            && next.credentials[id].currentHash.secret == Derived(id, row.generation + 1, rotationId))
      && (next.credentials[id].generation != row.generation + 1 ==> SameSecrets(row, next.credentials[id]))
  {
    RefreshExactly(db, keyId, Token(id, db.credentials[id].currentHash.secret), rotationId, now);
    assert ValidRow(db, id);
  }

  /** The user's unrevoked rows are revoked and both of the user's counters advanced; nothing else changes. */
  ghost predicate AllRevoked(db: Tables, userId: string, now: int, next: Tables) {
    && next.passkeys == db.passkeys
    && next.credentials.Keys == db.credentials.Keys && next.users.Keys == db.users.Keys
    && (forall id :: id in db.credentials ==>
          next.credentials[id] == if db.credentials[id].userId == userId && db.credentials[id].revokedAt.None?
                                  then db.credentials[id].(revokedAt := Some(now)) else db.credentials[id])
    && forall u :: u in db.users ==>
         next.users[u] == if u != userId then db.users[u]
                          else User(db.users[u].role, db.users[u].authEpoch + 1, db.users[u].mfaRevision + 1)
  }

  lemma RevokeAllExactly(db: Tables, keyId: string, userId: string, now: int)
    ensures AllRevoked(db, userId, now, Apply(db, keyId, RevokeAll(userId, now)))
  {
  }

  // ---------------------------------------------------------------- the service

  /** The exported functions of device-credential.ts over the three tables. */
  class DeviceCredentials {
    const keyId: string
    var users: map<string, User>
    var passkeys: map<string, Passkey>
    var credentials: map<string, Credential>

    constructor (keyId: string, users: map<string, User>, passkeys: map<string, Passkey>)
      ensures this.keyId == keyId && Db() == Tables(users, passkeys, map[]) && Valid(Db())
    {
      this.keyId := keyId;
      this.users, this.passkeys, this.credentials := users, passkeys, map[];
    }

    function Db(): Tables
      reads this
    {
      Tables(users, passkeys, credentials)
    }

    method IssueDeviceCredential(deviceId: string, nonce: nat, userId: string, rootPasskeyId: string,
                                 authentication: Evidence, authEpoch: nat, now: int)
      returns (issued: Option<Token>)
      requires Valid(Db()) && deviceId !in credentials
      modifies this`credentials
      ensures Valid(Db())
      ensures Db()
              == Apply(old(Db()), keyId, Issue(deviceId, userId, rootPasskeyId, authentication, authEpoch, nonce, now))
      ensures issued.Some? <==>
        && userId in users && rootPasskeyId in passkeys && passkeys[rootPasskeyId] == Passkey(userId, false)
        && {"pop", "mfa"} <= authentication.amr
        && authentication.revision == users[userId].mfaRevision && authEpoch == users[userId].authEpoch
      ensures credentials ==
        if issued.None? then old(credentials) else
        old(credentials)[deviceId := Credential(userId, rootPasskeyId, keyId, authentication, authEpoch, 0,
          HashOf(deviceId, Random(nonce)), None, None, None, None, now + 2_592_000_000, now, now, None)]
      ensures issued.Some? ==>
        && issued.value == Token(deviceId, Random(nonce)) && Usable(Db(), keyId, deviceId)
        && ResolveSession(Db(), issued.value, now) == Some((userId, deviceId))
    {
      StepKeepsValid(Db(), keyId, Issue(deviceId, userId, rootPasskeyId, authentication, authEpoch, nonce, now));
      var expiresAt := now + DEVICE_CREDENTIAL_TTL_MS;
      if userId !in users || rootPasskeyId !in passkeys { return None; }
      var user, passkey := users[userId], passkeys[rootPasskeyId];
      if passkey.userId != userId || passkey.revoked { return None; }
      if "pop" !in authentication.amr || "mfa" !in authentication.amr
         || authentication.revision != user.mfaRevision || authEpoch != user.authEpoch {
        return None;
      }
      credentials := credentials[deviceId := Credential(userId, rootPasskeyId, keyId, authentication, user.authEpoch,
        0, HashOf(deviceId, Random(nonce)), None, None, None, None, expiresAt, now, now, None)];
      issued := Some(Token(deviceId, Random(nonce)));
    }

    method RotateDeviceSession(token: Option<Token>, rotationId: string, now: int)
      returns (reply: Result<Session, ErrorCode>)
      requires Valid(Db())
      modifies this`credentials
      ensures Valid(Db())
      ensures token.None? ==> reply == Err(CredentialMissing) && Db() == old(Db())
      ensures token.Some? ==> Db() == Apply(old(Db()), keyId, Refresh(token.value, rotationId, now))
      ensures token.Some? ==>
        RefreshOutcome(old(Db()), keyId, token.value, rotationId, now, Db(),
                  if reply.Ok? then Ok(reply.value.token.secret) else Err(reply.error))
      ensures token.Some? ==>
        var decision := DecisionFor(old(Db()), keyId, token.value.deviceId, token.value.secret, rotationId, now);
        if decision.Refuse? then
          reply == Err(decision.code)
        else
          && reply.Ok?
          && reply.value.token == Token(token.value.deviceId, decision.secret)
          && reply.value.token.secret == credentials[token.value.deviceId].currentHash.secret
          && reply.value.expiresAt == old(credentials)[token.value.deviceId].expiresAt
          && reply.value.userId == old(credentials)[token.value.deviceId].userId
          && reply.value.authEpoch == users[reply.value.userId].authEpoch
          && reply.value.role == users[reply.value.userId].role
    {
      if token.None? { return Err(CredentialMissing); }
      var deviceId := token.value.deviceId;
      StepKeepsValid(Db(), keyId, Refresh(token.value, rotationId, now));
      RefreshExactly(Db(), keyId, token.value, rotationId, now);
      if deviceId !in credentials { return Err(CredentialInvalid); }
      var row := credentials[deviceId];
      if row.userId !in users { return Err(PasskeyRequired); }
      var user := users[row.userId];
      if !LivePasskey(Db(), row.rootPasskeyId, row.userId) || row.authEpoch != user.authEpoch
         || row.evidence.revision != user.mfaRevision || row.tokenKeyId != keyId {
        return Err(PasskeyRequired);
      }
      var decision := DecideRotation(StateOf(deviceId, row), token.value.secret, rotationId, now);
      if decision.Refuse? { return Err(decision.code); }
      if decision.Rotate? {
        credentials := credentials[deviceId := row.(
          generation := decision.nextGeneration,
          currentHash := decision.nextHash,
          previousHash := Some(row.currentHash),
          previousValidUntil := Some(decision.previousValidUntil),
          lastRotationId := Some(rotationId),
          lastRotatedAt := Some(now),
          lastUsedAt := now)];
      } else {
        credentials := credentials[deviceId := row.(lastUsedAt := now)];
      }
      reply := Ok(Session(row.userId, user.role, Token(deviceId, decision.secret), row.expiresAt,
                          user.authEpoch, row.evidence));
    }

    method RevokeDeviceCredential(userId: string, deviceId: string, now: int) returns (revoked: bool)
      requires Valid(Db())
      modifies this`credentials
      ensures Valid(Db()) && Db() == Apply(old(Db()), keyId, Revoke(userId, deviceId, now))
      ensures revoked <==> deviceId in old(credentials) && old(credentials)[deviceId].userId == userId
                           && old(credentials)[deviceId].revokedAt.None?
      ensures credentials ==
        if revoked then old(credentials)[deviceId := old(credentials)[deviceId].(revokedAt := Some(now))]
        else old(credentials)
      ensures !Usable(Db(), keyId, deviceId) || credentials[deviceId].userId != userId
    {
      StepKeepsValid(Db(), keyId, Revoke(userId, deviceId, now));
      revoked := deviceId in credentials && credentials[deviceId].userId == userId
                 && credentials[deviceId].revokedAt.None?;
      if revoked {
        credentials := credentials[deviceId := credentials[deviceId].(revokedAt := Some(now))];
      }
      assert Db().credentials == Apply(old(Db()), keyId, Revoke(userId, deviceId, now)).credentials;
    }

    method RevokeAllDeviceCredentials(userId: string, now: int) returns (count: nat)
      requires Valid(Db())
      modifies this`credentials, this`users
      ensures Valid(Db()) && Db() == Apply(old(Db()), keyId, RevokeAll(userId, now))
      ensures AllRevoked(old(Db()), userId, now, Db())
      ensures count == |set id | id in old(credentials) && old(credentials)[id].userId == userId
                                 && old(credentials)[id].revokedAt.None?|
      ensures NoneUsable(Db(), keyId, userId)
    {
      ghost var db := Db();
      count := |set id | id in credentials && credentials[id].userId == userId && credentials[id].revokedAt.None?|;
      credentials := RevokeOwned(credentials, userId, now);
      if userId in users {
        var user := users[userId];
        users := users[userId := user.(authEpoch := user.authEpoch + 1, mfaRevision := user.mfaRevision + 1)];
      }
      assert Db() == Apply(db, keyId, RevokeAll(userId, now));
      assert Valid(Db()) by { StepKeepsValid(db, keyId, RevokeAll(userId, now)); }
      assert NoneUsable(Db(), keyId, userId) by { LogoutAllDisables(db, keyId, userId, now); }
      assert AllRevoked(db, userId, now, Db()) by { RevokeAllExactly(db, keyId, userId, now); }
    }
  }
}
