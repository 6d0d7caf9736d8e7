/**
 The rotation decision of server/src/auth/device-rotation.ts.

 HMAC and key derivation are free constructors: two of their values are equal only when every
 argument is equal. Times are integer milliseconds.
 */
module DeviceRotation {
  import opened Wrappers
  import opened DeviceToken

  /** The window in which the secret that was just replaced is still recognised. */
  const ROTATION_GRACE_MS := 30_000

  /** The first secret of a device is random; every later one is derived from the row and the rotation id. */
  datatype Secret =
    | Random(nonce: nat)
    | Derived(device: string, generation: nat, rotationId: string)

  datatype SecretHash = Hmac(prefix: string, device: string, secret: Secret)

  function HashOf(device: string, secret: Secret): SecretHash {
    Hmac(DEVICE_TOKEN_PREFIX, device, secret)
  }

  datatype ErrorCode =
    | CredentialMissing
    | CredentialInvalid
    | CredentialExpired
    | CredentialRevoked
    | RotationConflict
    | PasskeyRequired

  datatype CredentialState = CredentialState(
    id: string,
    generation: nat,
    currentHash: SecretHash,
    previousHash: Option<SecretHash>,
    previousValidUntil: Option<int>,
    lastRotationId: Option<string>,
    lastRotatedAt: Option<int>,
    expiresAt: int,
    revokedAt: Option<int>)

  datatype Decision =
    | Keep(secret: Secret)
    | Replay(secret: Secret)
    | Rotate(secret: Secret, nextGeneration: nat, nextHash: SecretHash, previousValidUntil: int)
    | Refuse(code: ErrorCode)

  function DecideRotation(state: CredentialState, presented: Secret, rotationId: string, now: int): Decision {
    var presentedHash := HashOf(state.id, presented);
    if state.revokedAt.Some? then
      Refuse(CredentialRevoked)
    else if state.expiresAt <= now then
      Refuse(CredentialExpired)
    else if presentedHash == state.currentHash then
      if state.lastRotatedAt.Some? && now - state.lastRotatedAt.value < ROTATION_GRACE_MS then
        Keep(presented)
      else
        NextGeneration(state, rotationId, now)
    else if MatchesPrevious(state, presentedHash, now) then
      // An empty id is falsy, so it never identifies a resend.
      if state.lastRotationId.Some? && state.lastRotationId.value != "" && state.lastRotationId.value == rotationId then
        Replay(Derived(state.id, state.generation, state.lastRotationId.value))
      else
        Refuse(RotationConflict)
    else
      Refuse(PasskeyRequired)
  }

  predicate MatchesPrevious(state: CredentialState, presentedHash: SecretHash, now: int) {
    && state.previousHash.Some?
    && state.previousValidUntil.Some? && now < state.previousValidUntil.value
    && presentedHash == state.previousHash.value
  }

  function NextGeneration(state: CredentialState, rotationId: string, now: int): Decision {
    var next := state.generation + 1;
    var secret := Derived(state.id, next, rotationId);
    Rotate(secret, next, HashOf(state.id, secret), now + ROTATION_GRACE_MS)
  }

  /** The generation a secret was made for. */
  function GenerationOf(secret: Secret): nat {
    if secret.Random? then 0 else secret.generation
  }

  /**
   What the fields of a row say about one another in every reachable state: the current hash is that
   of the secret derived from (id, generation, lastRotationId), and the previous hash is one generation older.
   */
  ghost predicate Consistent(state: CredentialState) {
    && state.currentHash == HashOf(state.id, state.currentHash.secret)
    && (state.generation == 0 ==>
      && state.currentHash.secret.Random?
      && state.previousHash.None? && state.previousValidUntil.None?
      && state.lastRotationId.None? && state.lastRotatedAt.None?)
    && (state.generation > 0 ==>
      && state.lastRotationId.Some? && state.lastRotatedAt.Some?
      && state.currentHash.secret == Derived(state.id, state.generation, state.lastRotationId.value)
      && state.previousValidUntil == Some(state.lastRotatedAt.value + ROTATION_GRACE_MS)
      && state.previousHash.Some?
      && state.previousHash.value == HashOf(state.id, state.previousHash.value.secret)
      && GenerationOf(state.previousHash.value.secret) == state.generation - 1)
  }
}
