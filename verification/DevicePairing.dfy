/**
 Adding another device: server/src/auth/device-pairing.ts over passkey-candidates.ts.

 A transaction is one atomic step; ids and tokens are new random strings. `promotions` is the history
 of candidates that became passkeys.
 */
module DevicePairing {
  import opened Wrappers

  const PAIRING_QR_TTL_MS := 180_000
  const PAIRING_APPROVAL_WINDOW_MS := 600_000
  const PAIRING_MAX_MATCH_ATTEMPTS := 3
  const CHALLENGE_TTL_MS := 300_000
  const MAX_TOKEN_LENGTH := 512

  datatype Pairing = Pairing(
    userId: string, authEpoch: nat, expiresAt: int,
    claimedAt: Option<int>, candidateId: Option<string>, matchCode: string, matchAttempts: nat,
    approvedAt: Option<int>, rejectedAt: Option<int>, revokedAt: Option<int>)

  datatype Candidate = Candidate(userId: string, promotedAt: Option<int>, revokedAt: Option<int>)

  datatype Ceremony = Ceremony(pairingId: string, userId: string, expiresAt: int)

  datatype Promotion = Promotion(pairingId: string, candidateId: string, row: Pairing, epoch: nat, entered: string,
      at: int)

  datatype State = State(
    epochs: map<string, nat>,
    pairings: map<string, Pairing>,
    tokens: map<string, string>,
    candidates: map<string, Candidate>,
    ceremonies: map<string, Ceremony>,
    registrations: map<nat, Ceremony>,
    promotions: seq<Promotion>)

  datatype Label = Waiting | HasCandidate | Approved | Rejected | Expired

  /** stateOf */
  function StateOf(row: Pairing, now: int): Label {
    if row.approvedAt.Some? then Approved
    else if row.rejectedAt.Some? then Rejected
    else if row.revokedAt.Some? then Expired
    else if row.candidateId.Some? then
      var deadline := (if row.claimedAt.Some? then row.claimedAt.value else 0) + PAIRING_APPROVAL_WINDOW_MS;
      if deadline > now then HasCandidate else Expired
    else if row.claimedAt.Some? then Waiting
    else if row.expiresAt > now then Waiting else Expired
  }

  datatype Step =
    | Create(pairingId: string, token: string, userId: string, now: int)
    | Begin(token: string, ceremonyId: string, now: int)
    | Take(ceremonyId: string, registration: nat, now: int)
    | Store(registration: nat, verified: bool, candidateId: string, matchCode: string, now: int)
    | Approve(userId: string, pairingId: string, candidateId: string, epoch: nat, matchCode: string, now: int)
    | Reject(userId: string, pairingId: string, now: int)
    | AdvanceEpoch(userId: string, now: int)

  // ---------------------------------------------------------------- the operations

  /** The unclaimed, unrevoked rows of the user are revoked. */
  function RevokeOpen(pairings: map<string, Pairing>, userId: string, now: int): map<string, Pairing> {
    map id | id in pairings ::
      if pairings[id].userId == userId && pairings[id].claimedAt.None? && pairings[id].revokedAt.None?
      then pairings[id].(revokedAt := Some(now)) else pairings[id]
  }

  function Created(st: State, pairingId: string, token: string, userId: string, now: int): State {
    if userId !in st.epochs || pairingId in st.pairings || token in st.tokens then st else
    var row := Pairing(userId, st.epochs[userId], now + PAIRING_QR_TTL_MS, None, None, "", 0, None, None, None);
    st.(pairings := RevokeOpen(st.pairings, userId, now)[pairingId := row], tokens := st.tokens[token := pairingId])
  }

  /** The row that UPDATE ... WHERE token_digest = ... AND claimed_at IS NULL AND revoked_at IS NULL would hit. */
  predicate Claimable(st: State, token: string) {
    && 0 < |token| <= MAX_TOKEN_LENGTH
    && token in st.tokens && st.tokens[token] in st.pairings
    && st.pairings[st.tokens[token]].claimedAt.None? && st.pairings[st.tokens[token]].revokedAt.None?
  }

  function Begun(st: State, token: string, ceremonyId: string, now: int): State {
    if !Claimable(st, token) then st else
    var id := st.tokens[token];
    var row := st.pairings[id].(claimedAt := Some(now));
    // The claim stays even where the checks after it refuse.
    var claimed := st.(pairings := st.pairings[id := row]);
    if row.expiresAt <= now || row.userId !in st.epochs ||
       st.epochs[row.userId] != row.authEpoch || ceremonyId in st.ceremonies then claimed
    else claimed.(ceremonies := st.ceremonies[ceremonyId := Ceremony(id, row.userId, now + CHALLENGE_TTL_MS)])
  }

  predicate MayFinish(st: State, ceremony: Ceremony, now: int) {
    && ceremony.userId in st.epochs && ceremony.pairingId in st.pairings
    && var row := st.pairings[ceremony.pairingId];
    && row.userId == ceremony.userId && row.authEpoch == st.epochs[ceremony.userId]
    && row.candidateId.None? && row.revokedAt.None? && row.rejectedAt.None? && row.claimedAt.Some?
    && now < row.claimedAt.value + PAIRING_APPROVAL_WINDOW_MS
  }

  /** The GETDEL that opens finishPairingRegistration; the registration goes on with the ceremony it took. */
  function Taken(st: State, ceremonyId: string, registration: nat, now: int): State {
    if ceremonyId !in st.ceremonies || registration in st.registrations then st else
    var ceremony := st.ceremonies[ceremonyId];
    var taken := st.(ceremonies := st.ceremonies - {ceremonyId});
    if ceremony.expiresAt <= now then taken else taken.(registrations := st.registrations[registration := ceremony])
  }

  /** The transaction of finishPairingRegistration, if the response has verified. */
  function Stored(st: State, registration: nat, verified: bool, candidateId: string, matchCode: string,
      now: int): State {
    if registration !in st.registrations then st else
    var ceremony := st.registrations[registration];
    var ended := st.(registrations := st.registrations - {registration});
    if !verified || !MayFinish(st, ceremony, now) || candidateId in st.candidates then ended else
    var row := st.pairings[ceremony.pairingId].(candidateId := Some(candidateId), matchCode := matchCode);
    ended.(candidates := st.candidates[candidateId := Candidate(ceremony.userId, None, None)],
           pairings := st.pairings[ceremony.pairingId := row])
  }

  /** revokePasskeyCandidate */
  function RevokeCandidate(candidates: map<string, Candidate>, id: string, now: int): map<string, Candidate> {
    if id in candidates && candidates[id].promotedAt.None? && candidates[id].revokedAt.None?
    then candidates[id := candidates[id].(revokedAt := Some(now))] else candidates
  }

  /** What approvePairing checks under its locks, before it looks at the number. */
  predicate MayApprove(st: State, userId: string, pairingId: string, candidateId: string, epoch: nat, now: int) {
    && userId in st.epochs && pairingId in st.pairings
    && var row := st.pairings[pairingId];
    && row.userId == userId && st.epochs[userId] == epoch && row.authEpoch == st.epochs[userId]
    && row.candidateId == Some(candidateId) && StateOf(row, now) == HasCandidate
  }

  /** lockOpenCandidate */
  predicate OpenCandidate(st: State, candidateId: string, userId: string) {
    && candidateId in st.candidates && st.candidates[candidateId].userId == userId
    && st.candidates[candidateId].promotedAt.None? && st.candidates[candidateId].revokedAt.None?
  }

  /** The row after one more wrong number; the last one rejects it. */
  function MissedRow(row: Pairing, now: int): Pairing {
    var missed := row.(matchAttempts := row.matchAttempts + 1);
    if missed.matchAttempts >= PAIRING_MAX_MATCH_ATTEMPTS then missed.(rejectedAt := Some(now)) else missed
  }

  function WrongNumber(st: State, pairingId: string, candidateId: string, now: int): State
    requires pairingId in st.pairings
  {
    var row := MissedRow(st.pairings[pairingId], now);
    st.(candidates := if row.matchAttempts >= PAIRING_MAX_MATCH_ATTEMPTS
                      then RevokeCandidate(st.candidates, candidateId, now) else st.candidates,
        pairings := st.pairings[pairingId := row])
  }

  function Promoted(st: State, pairingId: string, candidateId: string, epoch: nat, entered: string, now: int): State
    requires pairingId in st.pairings && candidateId in st.candidates
  {
    var row := st.pairings[pairingId];
    st.(candidates := st.candidates[candidateId := st.candidates[candidateId].(promotedAt := Some(now))],
        pairings := st.pairings[pairingId := row.(approvedAt := Some(now))],
        promotions := st.promotions + [Promotion(pairingId, candidateId, row, epoch, entered, now)])
  }

  function ApprovedBy(st: State, userId: string, pairingId: string, candidateId: string, epoch: nat,
      matchCode: string, now: int): State {
    if !MayApprove(st, userId, pairingId, candidateId, epoch, now) then st else
    var expected := st.pairings[pairingId].matchCode;
    if expected == "" || expected != matchCode then WrongNumber(st, pairingId, candidateId, now)
    else if !OpenCandidate(st, candidateId, userId) then st
    else Promoted(st, pairingId, candidateId, epoch, matchCode, now)
  }

  function RejectedBy(st: State, userId: string, pairingId: string, now: int): State {
    if pairingId !in st.pairings || st.pairings[pairingId].userId != userId ||
       st.pairings[pairingId].approvedAt.Some? then st else
    var row := st.pairings[pairingId];
    st.(candidates := if row.candidateId.Some? then RevokeCandidate(st.candidates, row.candidateId.value, now)
                      else st.candidates,
        pairings := st.pairings[pairingId := row.(rejectedAt := Some(now))])
  }

  function Next(st: State, step: Step): State {
    match step
    case Create(pairingId, token, userId, now) => Created(st, pairingId, token, userId, now)
    case Begin(token, ceremonyId, now) => Begun(st, token, ceremonyId, now)
    case Take(ceremonyId, registration, now) => Taken(st, ceremonyId, registration, now)
    case Store(registration, verified, candidateId, matchCode, now) =>
      Stored(st, registration, verified, candidateId, matchCode, now)
    case Approve(userId, pairingId, candidateId, epoch, matchCode, now) =>
      ApprovedBy(st, userId, pairingId, candidateId, epoch, matchCode, now)
    case Reject(userId, pairingId, now) => RejectedBy(st, userId, pairingId, now)
    case AdvanceEpoch(userId, now) =>
      if userId in st.epochs then st.(epochs := st.epochs[userId := st.epochs[userId] + 1]) else st
  }

  function Run(st: State, trace: seq<Step>): State
    decreases |trace|
  {
    if trace == [] then st else Next(Run(st, trace[..|trace| - 1]), trace[|trace| - 1])
  }

  function Initial(epochs: map<string, nat>): State {
    State(epochs, map[], map[], map[], map[], map[], [])
  }

  // ---------------------------------------------------------------- what every run keeps

  /** One row, whatever the others are. */
  ghost predicate RowInvariant(row: Pairing) {
    && !(row.approvedAt.Some? && row.rejectedAt.Some?)
    && row.matchAttempts <= PAIRING_MAX_MATCH_ATTEMPTS
    && (row.matchAttempts == PAIRING_MAX_MATCH_ATTEMPTS ==> row.rejectedAt.Some?)
    && (row.candidateId.Some? ==> row.claimedAt.Some?)
    && (row.approvedAt.Some? ==> row.candidateId.Some?)
    && (row.claimedAt.Some? ==> row.revokedAt.None?)
  }

  ghost predicate Unclaimed(st: State, id: string, userId: string) {
    id in st.pairings && st.pairings[id].userId == userId
    && st.pairings[id].claimedAt.None? && st.pairings[id].revokedAt.None?
  }

  ghost predicate SharesCandidate(st: State, p: string, q: string) {
    p in st.pairings && q in st.pairings && st.pairings[p].candidateId.Some?
    && st.pairings[p].candidateId == st.pairings[q].candidateId
  }

  /**
   Rows are sound; a user has one open row; a candidate belongs to one row, and is promoted with its approval only.
   */
  ghost predicate Invariant(st: State) {
    && (forall id :: id in st.pairings ==> RowInvariant(st.pairings[id]))
    && (forall id :: id in st.pairings && st.pairings[id].candidateId.Some? ==>
          st.pairings[id].candidateId.value in st.candidates)
    && (forall p, q :: SharesCandidate(st, p, q) ==> p == q)
    && (forall p, q, u :: Unclaimed(st, p, u) && Unclaimed(st, q, u) ==> p == q)
    && (forall i :: 0 <= i < |st.promotions| ==> GoodPromotion(st, st.promotions[i]))
    && (forall i, j :: 0 <= i < j < |st.promotions| ==>
          st.promotions[i].candidateId != st.promotions[j].candidateId
          && st.promotions[i].pairingId != st.promotions[j].pairingId)
  }

  /** A promotion: right user epoch, in time, under three wrong numbers, for the row's
   own number and candidate, and recorded as approved. */
  ghost predicate GoodPromotion(st: State, p: Promotion) {
    && p.pairingId in st.pairings && st.pairings[p.pairingId].approvedAt.Some?
    && p.candidateId in st.candidates && st.candidates[p.candidateId].promotedAt.Some?
    && st.pairings[p.pairingId].candidateId == Some(p.candidateId) == p.row.candidateId
    && p.row.matchAttempts < PAIRING_MAX_MATCH_ATTEMPTS
    && p.row.claimedAt.Some? && p.at < p.row.claimedAt.value + PAIRING_APPROVAL_WINDOW_MS
    && p.row.claimedAt == st.pairings[p.pairingId].claimedAt
    && p.row.authEpoch == p.epoch == st.pairings[p.pairingId].authEpoch
    && p.row.rejectedAt.None? && p.row.revokedAt.None?
    && p.entered == p.row.matchCode != ""
  }

  /** How a row may differ from itself earlier in a run: outcomes, the claim and the candidate are set once and kept. */
  ghost predicate Evolves(a: Pairing, b: Pairing) {
    && b.userId == a.userId && b.authEpoch == a.authEpoch && b.expiresAt == a.expiresAt
    && (a.claimedAt.Some? ==> b.claimedAt == a.claimedAt)
    && (a.candidateId.Some? ==> b.candidateId == a.candidateId && b.matchCode == a.matchCode)
    && (a.approvedAt.Some? ==> b == a)
    && (a.rejectedAt.Some? ==> b.rejectedAt.Some? && b.approvedAt.None?)
    && (a.revokedAt.Some? ==> b.revokedAt.Some? && b.claimedAt == a.claimedAt)
    && a.matchAttempts <= b.matchAttempts
  }

  ghost predicate RowsEvolve(a: State, b: State) {
    forall id :: id in a.pairings ==> id in b.pairings && Evolves(a.pairings[id], b.pairings[id])
  }

  ghost predicate CandidatesKept(st: State, next: State) {
    forall c :: c in st.candidates ==>
      c in next.candidates && (st.candidates[c].promotedAt.Some? ==> next.candidates[c].promotedAt.Some?)
  }

  /** A promotion stays good while its row and its candidate keep what they recorded. */
  lemma PromotionsStayGood(st: State, next: State)
    requires Invariant(st) && RowsEvolve(st, next) && st.promotions <= next.promotions && CandidatesKept(st, next)
    ensures forall i :: 0 <= i < |st.promotions| ==> GoodPromotion(next, next.promotions[i])
  {
    forall i | 0 <= i < |st.promotions| ensures GoodPromotion(next, next.promotions[i]) {
      assert GoodPromotion(st, st.promotions[i]) && next.promotions[i] == st.promotions[i];
    }
  }

  /** A row may become this one without opening it again or changing its candidate. */
  ghost predicate RowUpdate(row: Pairing, updated: Pairing) {
    && Evolves(row, updated) && RowInvariant(updated) && updated.candidateId == row.candidateId
    && (updated.claimedAt.None? && updated.revokedAt.None? ==> row.claimedAt.None? && row.revokedAt.None?)
  }

  lemma UpdatedRowKeepsInvariant(st: State, next: State, id: string, row: Pairing)
    requires Invariant(st) && id in st.pairings && RowUpdate(st.pairings[id], row)
    requires next.pairings == st.pairings[id := row] && next.promotions == st.promotions && CandidatesKept(st, next)
    ensures Invariant(next) && RowsEvolve(st, next)
  {
    PromotionsStayGood(st, next);
    forall p, q, u | Unclaimed(next, p, u) && Unclaimed(next, q, u) ensures p == q {
      assert Unclaimed(st, p, u) && Unclaimed(st, q, u);
    }
    forall p, q | SharesCandidate(next, p, q) ensures p == q { assert SharesCandidate(st, p, q); }
  }

  lemma SameRowsKeepInvariant(st: State, next: State)
    requires Invariant(st) && next.pairings == st.pairings && next.promotions == st.promotions
    requires CandidatesKept(st, next)
    ensures Invariant(next) && RowsEvolve(st, next)
  {
    PromotionsStayGood(st, next);
    forall p, q, u | Unclaimed(next, p, u) && Unclaimed(next, q, u) ensures p == q {
      assert Unclaimed(st, p, u) && Unclaimed(st, q, u);
    }
    forall p, q | SharesCandidate(next, p, q) ensures p == q { assert SharesCandidate(st, p, q); }
  }

  lemma RevokedRowsEvolve(st: State, userId: string, now: int)
    requires Invariant(st)
    ensures
      var next := st.(pairings := RevokeOpen(st.pairings, userId, now));
      && RowsEvolve(st, next)
      && (forall id :: id in next.pairings ==> RowInvariant(next.pairings[id]))
      && forall p, u :: Unclaimed(next, p, u) ==> Unclaimed(st, p, u) && u != userId
  {
  }

  lemma RevokedRowsKeepInvariant(st: State, userId: string, now: int)
    requires Invariant(st)
    ensures
      var next := st.(pairings := RevokeOpen(st.pairings, userId, now));
      Invariant(next) && RowsEvolve(st, next) && forall p :: !Unclaimed(next, p, userId)
  {
    var next := st.(pairings := RevokeOpen(st.pairings, userId, now));
    RevokedRowsEvolve(st, userId, now);
    PromotionsStayGood(st, next);
    forall p, q | SharesCandidate(next, p, q) ensures p == q { assert SharesCandidate(st, p, q); }
  }

  lemma NewRowKeepsInvariant(st: State, next: State, id: string, row: Pairing)
    requires Invariant(st) && id !in st.pairings && forall p :: !Unclaimed(st, p, row.userId)
    requires RowInvariant(row) && row.candidateId.None?
    requires next.pairings == st.pairings[id := row]
    requires next.promotions == st.promotions && next.candidates == st.candidates
    ensures Invariant(next) && RowsEvolve(st, next)
  {
    PromotionsStayGood(st, next);
    forall p, q, u | Unclaimed(next, p, u) && Unclaimed(next, q, u) ensures p == q {
      if u != row.userId { assert Unclaimed(st, p, u) && Unclaimed(st, q, u); }
      assert p != id ==> Unclaimed(st, p, u);
      assert q != id ==> Unclaimed(st, q, u);
    }
    forall p, q | SharesCandidate(next, p, q) ensures p == q { assert SharesCandidate(st, p, q); }
  }

  lemma RowsEvolveTransitively(a: State, b: State, c: State)
    requires RowsEvolve(a, b) && RowsEvolve(b, c)
    ensures RowsEvolve(a, c)
  {
    forall id | id in a.pairings ensures id in c.pairings && Evolves(a.pairings[id], c.pairings[id]) {
      assert Evolves(a.pairings[id], b.pairings[id]) && Evolves(b.pairings[id], c.pairings[id]);
    }
  }

  lemma CreatedKeepsInvariant(st: State, pairingId: string, token: string, userId: string, now: int)
    requires Invariant(st)
    ensures Invariant(Created(st, pairingId, token, userId, now))
    ensures RowsEvolve(st, Created(st, pairingId, token, userId, now))
  {
    var next := Created(st, pairingId, token, userId, now);
    if userId in st.epochs && pairingId !in st.pairings && token !in st.tokens {
      var revoked := st.(pairings := RevokeOpen(st.pairings, userId, now));
      RevokedRowsKeepInvariant(st, userId, now);
      assert next.pairings == revoked.pairings[pairingId := next.pairings[pairingId]];
      NewRowKeepsInvariant(revoked, next, pairingId, next.pairings[pairingId]);
      RowsEvolveTransitively(st, revoked, next);
    }
  }

  lemma BegunKeepsInvariant(st: State, token: string, ceremonyId: string, now: int)
    requires Invariant(st)
    ensures Invariant(Begun(st, token, ceremonyId, now)) && RowsEvolve(st, Begun(st, token, ceremonyId, now))
  {
    if Claimable(st, token) {
      var id := st.tokens[token];
      assert RowInvariant(st.pairings[id]);
      UpdatedRowKeepsInvariant(st, Begun(st, token, ceremonyId, now), id, st.pairings[id].(claimedAt := Some(now)));
    }
  }

  /** Giving a claimed row a candidate that is new. */
  lemma NewCandidateKeepsInvariant(st: State, next: State, id: string, candidateId: string, matchCode: string,
      candidate: Candidate)
    requires Invariant(st) && id in st.pairings && candidateId !in st.candidates
    requires st.pairings[id].candidateId.None? && st.pairings[id].claimedAt.Some?
    requires next.pairings
             == st.pairings[id := st.pairings[id].(candidateId := Some(candidateId), matchCode := matchCode)]
    requires next.candidates == st.candidates[candidateId := candidate] && next.promotions == st.promotions
    ensures Invariant(next) && RowsEvolve(st, next)
  {
    assert RowInvariant(st.pairings[id]);
    PromotionsStayGood(st, next);
    forall p, q, u | Unclaimed(next, p, u) && Unclaimed(next, q, u) ensures p == q {
      assert Unclaimed(st, p, u) && Unclaimed(st, q, u);
    }
    forall p, q | SharesCandidate(next, p, q) ensures p == q {
      if p != id && q != id { assert SharesCandidate(st, p, q); }
    }
  }

  lemma TakenKeepsInvariant(st: State, ceremonyId: string, registration: nat, now: int)
    requires Invariant(st)
    ensures Invariant(Taken(st, ceremonyId, registration, now))
    ensures RowsEvolve(st, Taken(st, ceremonyId, registration, now))
  {
    SameRowsKeepInvariant(st, Taken(st, ceremonyId, registration, now));
  }

  lemma StoredKeepsInvariant(st: State, registration: nat, verified: bool, candidateId: string, matchCode: string,
      now: int)
    requires Invariant(st)
    ensures Invariant(Stored(st, registration, verified, candidateId, matchCode, now))
    ensures RowsEvolve(st, Stored(st, registration, verified, candidateId, matchCode, now))
  {
    var next := Stored(st, registration, verified, candidateId, matchCode, now);
    if next.candidates == st.candidates {
      SameRowsKeepInvariant(st, next);
    } else {
      var ceremony := st.registrations[registration];
      NewCandidateKeepsInvariant(st, next, ceremony.pairingId, candidateId, matchCode,
                                 Candidate(ceremony.userId, None, None));
    }
  }

  lemma MissedRowIsUpdate(row: Pairing, now: int)
    requires RowInvariant(row) && StateOf(row, now) == HasCandidate
    ensures RowUpdate(row, MissedRow(row, now))
  {
  }

  lemma WrongNumberKeepsInvariant(st: State, pairingId: string, candidateId: string, now: int)
    requires Invariant(st) && pairingId in st.pairings && StateOf(st.pairings[pairingId], now) == HasCandidate
    ensures Invariant(WrongNumber(st, pairingId, candidateId, now))
    ensures RowsEvolve(st, WrongNumber(st, pairingId, candidateId, now))
  {
    var next := WrongNumber(st, pairingId, candidateId, now);
    assert RowInvariant(st.pairings[pairingId]);
    MissedRowIsUpdate(st.pairings[pairingId], now);
    UpdatedRowKeepsInvariant(st, next, pairingId, next.pairings[pairingId]);
  }

  /** Adding a good promotion of a candidate and a row that have none. */
  lemma PromotionKeepsInvariant(st: State, p: Promotion)
    requires Invariant(st) && GoodPromotion(st, p)
    requires forall i :: 0 <= i < |st.promotions| ==>
      st.promotions[i].candidateId != p.candidateId && st.promotions[i].pairingId != p.pairingId
    ensures Invariant(st.(promotions := st.promotions + [p]))
  {
    var next := st.(promotions := st.promotions + [p]);
    forall i | 0 <= i < |next.promotions| ensures GoodPromotion(next, next.promotions[i]) {
      if i < |st.promotions| { assert GoodPromotion(st, st.promotions[i]); } else { assert GoodPromotion(st, p); }
    }
    forall p, q, u | Unclaimed(next, p, u) && Unclaimed(next, q, u) ensures p == q {
      assert Unclaimed(st, p, u) && Unclaimed(st, q, u);
    }
    forall p, q | SharesCandidate(next, p, q) ensures p == q { assert SharesCandidate(st, p, q); }
  }

  lemma PromotedKeepsInvariant(st: State, userId: string, pairingId: string, candidateId: string, epoch: nat,
      entered: string, now: int)
    requires Invariant(st) && MayApprove(st, userId, pairingId, candidateId, epoch, now)
    requires OpenCandidate(st, candidateId, userId)
    requires entered == st.pairings[pairingId].matchCode != ""
    ensures Invariant(Promoted(st, pairingId, candidateId, epoch, entered, now))
    ensures RowsEvolve(st, Promoted(st, pairingId, candidateId, epoch, entered, now))
  {
    var next := Promoted(st, pairingId, candidateId, epoch, entered, now);
    var approved := next.(promotions := st.promotions);
    assert RowInvariant(st.pairings[pairingId]);
    UpdatedRowKeepsInvariant(st, approved, pairingId, next.pairings[pairingId]);
    forall i | 0 <= i < |st.promotions|
      ensures st.promotions[i].candidateId != candidateId && st.promotions[i].pairingId != pairingId
    {
      assert GoodPromotion(st, st.promotions[i]);
    }
    PromotionKeepsInvariant(approved, Promotion(pairingId, candidateId, st.pairings[pairingId], epoch, entered, now));
  }

  lemma RejectedKeepsInvariant(st: State, userId: string, pairingId: string, now: int)
    requires Invariant(st)
    ensures Invariant(RejectedBy(st, userId, pairingId, now)) && RowsEvolve(st, RejectedBy(st, userId, pairingId, now))
  {
    var next := RejectedBy(st, userId, pairingId, now);
    if next.pairings == st.pairings {
      SameRowsKeepInvariant(st, next);
    } else {
      assert RowInvariant(st.pairings[pairingId]);
      UpdatedRowKeepsInvariant(st, next, pairingId, next.pairings[pairingId]);
    }
  }

  lemma ApprovedKeepsInvariant(st: State, userId: string, pairingId: string, candidateId: string, epoch: nat,
      matchCode: string, now: int)
    requires Invariant(st)
    ensures Invariant(ApprovedBy(st, userId, pairingId, candidateId, epoch, matchCode, now))
    ensures RowsEvolve(st, ApprovedBy(st, userId, pairingId, candidateId, epoch, matchCode, now))
  {
    SameRowsKeepInvariant(st, st);
    if MayApprove(st, userId, pairingId, candidateId, epoch, now) {
      WrongNumberKeepsInvariant(st, pairingId, candidateId, now);
      if OpenCandidate(st, candidateId, userId) && matchCode == st.pairings[pairingId].matchCode != "" {
        PromotedKeepsInvariant(st, userId, pairingId, candidateId, epoch, matchCode, now);
      }
    }
  }

  lemma NextKeepsInvariant(st: State, step: Step)
    requires Invariant(st)
    ensures Invariant(Next(st, step)) && RowsEvolve(st, Next(st, step))
  {
    match step
    case Create(pairingId, token, userId, now) => CreatedKeepsInvariant(st, pairingId, token, userId, now);
    case Begin(token, ceremonyId, now) =>
      BegunKeepsInvariant(st, token, ceremonyId, now); SameRowsKeepInvariant(st, st);
    case Take(ceremonyId, registration, now) => TakenKeepsInvariant(st, ceremonyId, registration, now);
    case Store(registration, verified, candidateId, matchCode, now) =>
      StoredKeepsInvariant(st, registration, verified, candidateId, matchCode, now);
    case Approve(userId, pairingId, candidateId, epoch, matchCode, now) =>
      ApprovedKeepsInvariant(st, userId, pairingId, candidateId, epoch, matchCode, now);
    case Reject(userId, pairingId, now) => RejectedKeepsInvariant(st, userId, pairingId, now);
    case AdvanceEpoch(userId, now) => SameRowsKeepInvariant(st, Next(st, step));
  }

  lemma {:induction false} RunKeepsInvariant(st: State, trace: seq<Step>)
    requires Invariant(st)
    ensures Invariant(Run(st, trace)) && RowsEvolve(st, Run(st, trace))
    decreases |trace|
  {
    if trace != [] {
      var before := Run(st, trace[..|trace| - 1]);
      RunKeepsInvariant(st, trace[..|trace| - 1]);
      NextKeepsInvariant(before, trace[|trace| - 1]);
    }
  }

  // ---------------------------------------------------------------- the theorems

  /** Every run: no row is both approved and rejected, and a user has at most one unclaimed unrevoked row. */
  lemma {:induction false} OutcomesAreExclusive(epochs: map<string, nat>, trace: seq<Step>)
    ensures
      var st := Run(Initial(epochs), trace);
      && (forall id :: id in st.pairings ==> !(st.pairings[id].approvedAt.Some? && st.pairings[id].rejectedAt.Some?))
      && (forall p, q, u :: Unclaimed(st, p, u) && Unclaimed(st, q, u) ==> p == q)
  {
    RunKeepsInvariant(Initial(epochs), trace);
    var st := Run(Initial(epochs), trace);
    assert forall id :: id in st.pairings ==> RowInvariant(st.pairings[id]);
  }

  /**
   Every run: a candidate is promoted at most once, and a row promotes at most one candidate, with fewer than three
   wrong numbers, within ten minutes of the claim and under the auth epoch of the row's creation.
   */
  lemma {:induction false} PromotionsAreEarned(epochs: map<string, nat>, trace: seq<Step>, i: nat)
    requires i < |Run(Initial(epochs), trace).promotions|
    ensures
      var st := Run(Initial(epochs), trace);
      && GoodPromotion(st, st.promotions[i])
      && forall j :: 0 <= j < |st.promotions| && j != i ==>
           st.promotions[j].candidateId != st.promotions[i].candidateId
           && st.promotions[j].pairingId != st.promotions[i].pairingId
  {
    RunKeepsInvariant(Initial(epochs), trace);
  }

  /** The row was not approved at `st`, and nothing after it promotes it. */
  ghost predicate NeverPromoted(st: State, last: State, pairingId: string) {
    && |st.promotions| <= |last.promotions|
    && (forall i :: |st.promotions| <= i < |last.promotions| ==> last.promotions[i].pairingId != pairingId)
  }

  /** Only an approval that passed its checks promotes, and it promotes its own row. */
  /** The step promotes nothing, or one candidate of that pairing. */
  ghost predicate PromotesAtMost(st: State, next: State, pairingId: string) {
    || next.promotions == st.promotions
    || (&& |next.promotions| == |st.promotions| + 1
        && next.promotions[..|st.promotions|] == st.promotions
        && next.promotions[|st.promotions|].pairingId == pairingId)
  }

  lemma ApprovedPromotes(st: State, userId: string, pairingId: string, candidateId: string, epoch: nat,
      matchCode: string, now: int)
    ensures
      var next := ApprovedBy(st, userId, pairingId, candidateId, epoch, matchCode, now);
      && PromotesAtMost(st, next, pairingId)
      && (next.promotions != st.promotions ==> MayApprove(st, userId, pairingId, candidateId, epoch, now))
  {
  }

  lemma NextPromotes(st: State, step: Step)
    ensures
      || Next(st, step).promotions == st.promotions
      || (&& step.Approve? && MayApprove(st, step.userId, step.pairingId, step.candidateId, step.epoch, step.now)
          && |Next(st, step).promotions| == |st.promotions| + 1
          && Next(st, step).promotions[..|st.promotions|] == st.promotions
          && Next(st, step).promotions[|st.promotions|].pairingId == step.pairingId)
  {
    if step.Approve? {
      ApprovedPromotes(st, step.userId, step.pairingId, step.candidateId, step.epoch, step.matchCode, step.now);
    }
  }

  lemma NotPromotedStep(st: State, before: State, step: Step, pairingId: string)
    requires NeverPromoted(st, before, pairingId)
    requires Next(before, step).promotions == before.promotions || (step.Approve? && step.pairingId != pairingId)
    ensures NeverPromoted(st, Next(before, step), pairingId)
  {
    var next := Next(before, step);
    NextPromotes(before, step);
    forall i | |st.promotions| <= i < |next.promotions| ensures next.promotions[i].pairingId != pairingId {
      if i < |before.promotions| {
        assert next.promotions[i] == next.promotions[..|before.promotions|][i] == before.promotions[i];
      }
    }
  }

  lemma RejectedStep(st: State, step: Step, pairingId: string)
    requires Invariant(st) && pairingId in st.pairings && st.pairings[pairingId].rejectedAt.Some?
    ensures pairingId in Next(st, step).pairings && Next(st, step).pairings[pairingId].rejectedAt.Some?
    ensures Next(st, step).promotions == st.promotions || (step.Approve? && step.pairingId != pairingId)
  {
    NextKeepsInvariant(st, step);
    NextPromotes(st, step);
  }

  /** A rejected row, and so one with three wrong numbers, is final: no later run approves it. */
  lemma {:induction false} RejectionIsFinal(st: State, trace: seq<Step>, pairingId: string)
    requires Invariant(st) && pairingId in st.pairings
    requires st.pairings[pairingId].rejectedAt.Some? ||
             st.pairings[pairingId].matchAttempts >= PAIRING_MAX_MATCH_ATTEMPTS
    ensures pairingId in Run(st, trace).pairings
    ensures Run(st, trace).pairings[pairingId].rejectedAt.Some?
    ensures NeverPromoted(st, Run(st, trace), pairingId)
    decreases |trace|
  {
    assert RowInvariant(st.pairings[pairingId]);
    if trace != [] {
      var before, step := Run(st, trace[..|trace| - 1]), trace[|trace| - 1];
      RejectionIsFinal(st, trace[..|trace| - 1], pairingId);
      RunKeepsInvariant(st, trace[..|trace| - 1]);
      RejectedStep(before, step, pairingId);
      NotPromotedStep(st, before, step, pairingId);
    }
  }

  /** The row's auth epoch is behind its user's. */
  ghost predicate Outdated(st: State, pairingId: string) {
    && pairingId in st.pairings
    && var row := st.pairings[pairingId]; row.userId in st.epochs && row.authEpoch < st.epochs[row.userId]
  }

  lemma NextKeepsEpochs(st: State, step: Step, userId: string)
    requires userId in st.epochs
    ensures userId in Next(st, step).epochs && st.epochs[userId] <= Next(st, step).epochs[userId]
  {
  }

  /** Once the user's epoch has moved past the row's, no later run promotes its candidate. */
  lemma {:induction false} EpochChangeIsFinal(st: State, trace: seq<Step>, pairingId: string)
    requires Invariant(st) && Outdated(st, pairingId)
    ensures Outdated(Run(st, trace), pairingId) && NeverPromoted(st, Run(st, trace), pairingId)
    decreases |trace|
  {
    if trace != [] {
      var before, step := Run(st, trace[..|trace| - 1]), trace[|trace| - 1];
      EpochChangeIsFinal(st, trace[..|trace| - 1], pairingId);
      RunKeepsInvariant(st, trace[..|trace| - 1]);
      OutdatedStep(before, step, pairingId);
      NotPromotedStep(st, before, step, pairingId);
    }
  }

  lemma OutdatedStep(st: State, step: Step, pairingId: string)
    requires Invariant(st) && Outdated(st, pairingId)
    ensures Outdated(Next(st, step), pairingId)
    ensures Next(st, step).promotions == st.promotions || (step.Approve? && step.pairingId != pairingId)
  {
    NextKeepsInvariant(st, step);
    NextPromotes(st, step);
    NextKeepsEpochs(st, step, st.pairings[pairingId].userId);
  }

  /** Rows carry an epoch that their user has had. */
  ghost predicate EpochsPast(st: State) {
    forall id :: id in st.pairings ==>
      st.pairings[id].userId in st.epochs && st.pairings[id].authEpoch <= st.epochs[st.pairings[id].userId]
  }

  lemma CreatedKeepsEpochsPast(st: State, pairingId: string, token: string, userId: string, now: int)
    requires EpochsPast(st)
    ensures EpochsPast(Created(st, pairingId, token, userId, now))
  {
  }

  lemma OnlyCreateAddsRows(st: State, step: Step)
    requires !step.Create?
    ensures Next(st, step).pairings.Keys == st.pairings.Keys
  {
  }

  lemma NextKeepsEpochsPast(st: State, step: Step)
    requires Invariant(st) && EpochsPast(st)
    ensures EpochsPast(Next(st, step))
  {
    var next := Next(st, step);
    if step.Create? {
      CreatedKeepsEpochsPast(st, step.pairingId, step.token, step.userId, step.now);
    } else {
      OnlyCreateAddsRows(st, step);
      NextKeepsInvariant(st, step);
      forall id | id in next.pairings
        ensures next.pairings[id].userId in next.epochs
        ensures next.pairings[id].authEpoch <= next.epochs[next.pairings[id].userId]
      {
        assert Evolves(st.pairings[id], next.pairings[id]);
        NextKeepsEpochs(st, step, st.pairings[id].userId);
      }
    }
  }

  lemma {:induction false} RunKeepsEpochsPast(epochs: map<string, nat>, trace: seq<Step>)
    ensures EpochsPast(Run(Initial(epochs), trace))
    decreases |trace|
  {
    if trace != [] {
      RunKeepsInvariant(Initial(epochs), trace[..|trace| - 1]);
      RunKeepsEpochsPast(epochs, trace[..|trace| - 1]);
      NextKeepsEpochsPast(Run(Initial(epochs), trace[..|trace| - 1]), trace[|trace| - 1]);
    }
  }

  /** When a user's epoch moves on in any run, no pairing of the user's from before is ever promoted afterwards. */
  lemma LogoutEndsPairings(epochs: map<string, nat>, earlier: seq<Step>, now: int, later: seq<Step>, pairingId: string)
    requires pairingId in Run(Initial(epochs), earlier).pairings
    ensures
      var st := Run(Initial(epochs), earlier);
      var after := Next(st, AdvanceEpoch(st.pairings[pairingId].userId, now));
      after.promotions == st.promotions && NeverPromoted(after, Run(after, later), pairingId)
  {
    var st := Run(Initial(epochs), earlier);
    var step := AdvanceEpoch(st.pairings[pairingId].userId, now);
    RunKeepsInvariant(Initial(epochs), earlier);
    RunKeepsEpochsPast(epochs, earlier);
    NextKeepsInvariant(st, step);
    EpochChangeIsFinal(Next(st, step), later, pairingId);
  }

  /** A ceremony, a registration, and so a candidate, exists only for a row claimed before its QR expired. */
  ghost predicate ClaimedInTime(st: State) {
    && (forall c :: c in st.ceremonies ==> TimelyClaim(st, st.ceremonies[c].pairingId))
    && (forall k :: k in st.registrations ==> TimelyClaim(st, st.registrations[k].pairingId))
    && (forall id :: id in st.pairings && st.pairings[id].candidateId.Some? ==> TimelyClaim(st, id))
  }

  ghost predicate TimelyClaim(st: State, id: string) {
    && id in st.pairings && st.pairings[id].claimedAt.Some?
    && st.pairings[id].claimedAt.value < st.pairings[id].expiresAt
  }

  /** No ceremony, registration or candidate is new. */
  ghost predicate StartsNothing(st: State, next: State) {
    && (forall c :: c in next.ceremonies ==> c in st.ceremonies && next.ceremonies[c] == st.ceremonies[c])
    && (forall k :: k in next.registrations ==> k in st.registrations && next.registrations[k] == st.registrations[k])
    && (forall id :: id in next.pairings && next.pairings[id].candidateId.Some? ==>
          id in st.pairings && st.pairings[id].candidateId.Some?)
  }

  lemma CreatedStartsNothing(st: State, pairingId: string, token: string, userId: string, now: int)
    ensures StartsNothing(st, Created(st, pairingId, token, userId, now))
  {
  }

  lemma ApprovedStartsNothing(st: State, userId: string, pairingId: string, candidateId: string, epoch: nat,
      matchCode: string, now: int)
    ensures StartsNothing(st, ApprovedBy(st, userId, pairingId, candidateId, epoch, matchCode, now))
  {
  }

  lemma RejectedStartsNothing(st: State, userId: string, pairingId: string, now: int)
    ensures StartsNothing(st, RejectedBy(st, userId, pairingId, now))
  {
  }

  lemma StartingNothingKeepsClaims(st: State, next: State)
    requires ClaimedInTime(st) && RowsEvolve(st, next) && StartsNothing(st, next)
    ensures ClaimedInTime(next)
  {
    forall id | TimelyClaim(st, id) ensures TimelyClaim(next, id) {
      assert Evolves(st.pairings[id], next.pairings[id]);
    }
  }

  lemma BegunRows(st: State, token: string, ceremonyId: string, now: int)
    ensures
      var next := Begun(st, token, ceremonyId, now);
      && next.registrations == st.registrations && next.pairings.Keys == st.pairings.Keys
      && (forall id :: id in st.pairings ==> next.pairings[id].candidateId == st.pairings[id].candidateId)
      && (forall id :: TimelyClaim(st, id) ==> TimelyClaim(next, id))
  {
  }

  /** A ceremony that a scan starts is for a row it has just claimed in time. */
  lemma BegunCeremonies(st: State, token: string, ceremonyId: string, now: int)
    ensures
      var next := Begun(st, token, ceremonyId, now);
      forall c :: c in next.ceremonies ==>
        || (c in st.ceremonies && next.ceremonies[c] == st.ceremonies[c])
        || TimelyClaim(next, next.ceremonies[c].pairingId)
  {
  }

  lemma BegunKeepsClaims(st: State, token: string, ceremonyId: string, now: int)
    requires ClaimedInTime(st)
    ensures ClaimedInTime(Begun(st, token, ceremonyId, now))
  {
    BegunRows(st, token, ceremonyId, now);
    BegunCeremonies(st, token, ceremonyId, now);
  }

  lemma TakenEffect(st: State, ceremonyId: string, registration: nat, now: int)
    ensures
      var next := Taken(st, ceremonyId, registration, now);
      && next.pairings == st.pairings
      && (forall c :: c in next.ceremonies ==> c in st.ceremonies && next.ceremonies[c] == st.ceremonies[c])
      && (forall k :: k in next.registrations ==>
            || (k in st.registrations && next.registrations[k] == st.registrations[k])
            || (ceremonyId in st.ceremonies && next.registrations[k] == st.ceremonies[ceremonyId]))
  {
  }

  lemma TakenKeepsClaims(st: State, ceremonyId: string, registration: nat, now: int)
    requires ClaimedInTime(st)
    ensures ClaimedInTime(Taken(st, ceremonyId, registration, now))
  {
    TakenEffect(st, ceremonyId, registration, now);
  }

  lemma StoredKeepsClaims(st: State, registration: nat, verified: bool, candidateId: string, matchCode: string,
      now: int)
    requires ClaimedInTime(st)
    ensures ClaimedInTime(Stored(st, registration, verified, candidateId, matchCode, now))
  {
    var next := Stored(st, registration, verified, candidateId, matchCode, now);
    assert forall id :: TimelyClaim(next, id) <==> TimelyClaim(st, id);
  }

  lemma {:induction false} NextKeepsClaimedInTime(st: State, step: Step)
    requires Invariant(st) && ClaimedInTime(st)
    ensures ClaimedInTime(Next(st, step))
  {
    match step
    case Create(pairingId, token, userId, now) =>
      CreatedKeepsInvariant(st, pairingId, token, userId, now);
      CreatedStartsNothing(st, pairingId, token, userId, now);
      StartingNothingKeepsClaims(st, Created(st, pairingId, token, userId, now));
    case Begin(token, ceremonyId, now) => BegunKeepsClaims(st, token, ceremonyId, now);
    case Take(ceremonyId, registration, now) => TakenKeepsClaims(st, ceremonyId, registration, now);
    case Store(registration, verified, candidateId, matchCode, now) =>
      StoredKeepsClaims(st, registration, verified, candidateId, matchCode, now);
    case Approve(userId, pairingId, candidateId, epoch, matchCode, now) =>
      ApprovedKeepsInvariant(st, userId, pairingId, candidateId, epoch, matchCode, now);
      ApprovedStartsNothing(st, userId, pairingId, candidateId, epoch, matchCode, now);
      StartingNothingKeepsClaims(st, ApprovedBy(st, userId, pairingId, candidateId, epoch, matchCode, now));
    case Reject(userId, pairingId, now) =>
      RejectedKeepsInvariant(st, userId, pairingId, now);
      RejectedStartsNothing(st, userId, pairingId, now);
      StartingNothingKeepsClaims(st, RejectedBy(st, userId, pairingId, now));
    case AdvanceEpoch(_, _) =>
  }

  /** From `since` on the row cannot be approved: it ended, or its QR or its approval window ran out unused. */
  ghost predicate Lapsed(st: State, id: string, since: int) {
    && id in st.pairings
    && var row := st.pairings[id];
    && row.approvedAt.None?
    && (|| row.rejectedAt.Some? || row.revokedAt.Some?
        || (row.candidateId.Some? && row.claimedAt.Some? && row.claimedAt.value + PAIRING_APPROVAL_WINDOW_MS <= since)
        || (row.candidateId.None? && row.claimedAt.Some? && row.expiresAt <= row.claimedAt.value)
        || (row.claimedAt.None? && row.expiresAt <= since))
  }

  lemma LapsedThroughCreate(st: State, pairingId: string, token: string, userId: string, now: int, id: string,
      since: int)
    requires Lapsed(st, id, since)
    ensures Lapsed(Created(st, pairingId, token, userId, now), id, since)
  {
  }

  lemma LapsedThroughStore(st: State, registration: nat, verified: bool, candidateId: string, matchCode: string,
      now: int, id: string, since: int)
    requires ClaimedInTime(st) && Lapsed(st, id, since)
    ensures Lapsed(Stored(st, registration, verified, candidateId, matchCode, now), id, since)
  {
    if registration in st.registrations { assert TimelyClaim(st, st.registrations[registration].pairingId); }
  }

  lemma LapsedThroughApprove(st: State, userId: string, pairingId: string, candidateId: string, epoch: nat,
      matchCode: string, now: int, id: string, since: int)
    requires Invariant(st) && Lapsed(st, id, since) && since <= now
    ensures Lapsed(ApprovedBy(st, userId, pairingId, candidateId, epoch, matchCode, now), id, since)
  {
    assert RowInvariant(st.pairings[id]);
  }

  lemma LapsedThroughBegin(st: State, token: string, ceremonyId: string, now: int, id: string, since: int)
    requires Invariant(st) && Lapsed(st, id, since) && since <= now
    ensures Lapsed(Begun(st, token, ceremonyId, now), id, since)
  {
    assert RowInvariant(st.pairings[id]);
  }

  lemma LapsedThroughReject(st: State, userId: string, pairingId: string, now: int, id: string, since: int)
    requires Lapsed(st, id, since)
    ensures Lapsed(RejectedBy(st, userId, pairingId, now), id, since)
  {
  }

  /** Claims and approvals read a clock that is not behind `since`; the other steps may read any. */
  ghost predicate InStep(step: Step, since: int) {
    step.Begin? || step.Approve? ==> since <= step.now
  }

  /** What a step may do to a row that exists: promotion aside, a claim is the only way out of being unclaimed. */
  lemma LapsedRowStep(st: State, step: Step, id: string, since: int)
    requires Invariant(st) && ClaimedInTime(st) && Lapsed(st, id, since) && InStep(step, since)
    ensures Lapsed(Next(st, step), id, since)
  {
    match step
    case Create(pairingId, token, userId, now) => LapsedThroughCreate(st, pairingId, token, userId, now, id, since);
    case Begin(token, ceremonyId, now) => LapsedThroughBegin(st, token, ceremonyId, now, id, since);
    case Store(registration, verified, candidateId, matchCode, now) =>
      LapsedThroughStore(st, registration, verified, candidateId, matchCode, now, id, since);
    case Approve(userId, pairingId, candidateId, epoch, matchCode, now) =>
      LapsedThroughApprove(st, userId, pairingId, candidateId, epoch, matchCode, now, id, since);
    case Reject(userId, pairingId, now) => LapsedThroughReject(st, userId, pairingId, now, id, since);
    case _ =>
  }

  lemma LapsedStep(st: State, step: Step, id: string, since: int)
    requires Invariant(st) && ClaimedInTime(st) && Lapsed(st, id, since) && InStep(step, since)
    ensures Lapsed(Next(st, step), id, since)
    ensures Next(st, step).promotions == st.promotions || (step.Approve? && step.pairingId != id)
  {
    LapsedRowStep(st, step, id, since);
    NextPromotes(st, step);
  }

  /**
   A row shown as expired is never promoted afterwards, although the label itself may change back: a claim after
   the QR's expiry is recorded but starts no ceremony.
   */
  lemma {:induction false} ExpiredIsNeverPromoted(epochs: map<string, nat>, trace: seq<Step>, id: string, since: int,
      later: seq<Step>)
    requires id in Run(Initial(epochs), trace).pairings
    requires StateOf(Run(Initial(epochs), trace).pairings[id], since) == Expired
    requires forall step :: step in later ==> InStep(step, since)
    ensures
      var st := Run(Initial(epochs), trace);
      && NeverPromoted(st, Run(st, later), id)
      && id in Run(st, later).pairings && Run(st, later).pairings[id].approvedAt.None?
  {
    var st := Run(Initial(epochs), trace);
    RunKeepsInvariant(Initial(epochs), trace);
    RunKeepsClaimedInTime(Initial(epochs), trace);
    assert RowInvariant(st.pairings[id]);
    LapsedForEver(st, later, id, since);
  }

  lemma {:induction false} RunKeepsClaimedInTime(st: State, trace: seq<Step>)
    requires Invariant(st) && ClaimedInTime(st)
    ensures ClaimedInTime(Run(st, trace))
    decreases |trace|
  {
    if trace != [] {
      RunKeepsClaimedInTime(st, trace[..|trace| - 1]);
      RunKeepsInvariant(st, trace[..|trace| - 1]);
      NextKeepsClaimedInTime(Run(st, trace[..|trace| - 1]), trace[|trace| - 1]);
    }
  }

  lemma {:induction false} LapsedForEver(st: State, trace: seq<Step>, id: string, since: int)
    requires Invariant(st) && ClaimedInTime(st) && Lapsed(st, id, since)
    requires forall step :: step in trace ==> InStep(step, since)
    ensures Lapsed(Run(st, trace), id, since) && NeverPromoted(st, Run(st, trace), id)
    decreases |trace|
  {
    if trace != [] {
      var before, step := Run(st, trace[..|trace| - 1]), trace[|trace| - 1];
      LapsedForEver(st, trace[..|trace| - 1], id, since);
      RunKeepsInvariant(st, trace[..|trace| - 1]);
      RunKeepsClaimedInTime(st, trace[..|trace| - 1]);
      LapsedStep(before, step, id, since);
      NotPromotedStep(st, before, step, id);
    }
  }

  /** The label `expired` alone may change again: a claim after the QR's expiry turns it into `waiting`. */
  lemma ExpiredLabelIsNotAbsorbing()
    ensures exists st: State, step: Step, id: string, later: int ::
      && Invariant(st) && id in st.pairings && id in Next(st, step).pairings && step.now <= later
      && StateOf(st.pairings[id], step.now) == Expired && StateOf(Next(st, step).pairings[id], later) == Waiting
  {
    var st := Created(Initial(map["u" := 0]), "p", "t", "u", 0);
    CreatedKeepsInvariant(Initial(map["u" := 0]), "p", "t", "u", 0);
    var step := Begin("t", "c", PAIRING_QR_TTL_MS);
    assert StateOf(st.pairings["p"], step.now) == Expired;
    assert StateOf(Next(st, step).pairings["p"], step.now) == Waiting;
  }

  /** A timely scan claims the new row and starts a ceremony for it. */
  lemma HonestClaim(st: State, userId: string, pairingId: string, token: string, ceremonyId: string, created: int,
      scanned: int)
    requires userId in st.epochs && 0 < |token| <= MAX_TOKEN_LENGTH
    requires pairingId !in st.pairings && token !in st.tokens && ceremonyId !in st.ceremonies
    requires scanned < created + PAIRING_QR_TTL_MS
    ensures
      var begun := Begun(Created(st, pairingId, token, userId, created), token, ceremonyId, scanned);
      && begun.epochs == st.epochs && begun.candidates == st.candidates && begun.promotions == st.promotions
      && begun.registrations == st.registrations
      && begun.ceremonies == st.ceremonies[ceremonyId := Ceremony(pairingId, userId, scanned + CHALLENGE_TTL_MS)]
      && pairingId in begun.pairings
      && begun.pairings[pairingId]
         == Pairing(userId, st.epochs[userId], created + PAIRING_QR_TTL_MS, Some(scanned), None, "", 0,
                    None, None, None)
  {
    assert Claimable(Created(st, pairingId, token, userId, created), token);
  }

  /** A verified registration with that ceremony makes the candidate the row's. */
  lemma HonestRegistration(begun: State, userId: string, pairingId: string, ceremonyId: string, registration: nat,
      candidateId: string, number: string, taken: int, registered: int)
    requires userId in begun.epochs && pairingId in begun.pairings && candidateId !in begun.candidates
    requires registration !in begun.registrations && ceremonyId in begun.ceremonies
    requires begun.ceremonies[ceremonyId].pairingId == pairingId && begun.ceremonies[ceremonyId].userId == userId
    requires taken < begun.ceremonies[ceremonyId].expiresAt
    requires MayFinish(begun, begun.ceremonies[ceremonyId], registered)
    ensures
      var waiting := Stored(Taken(begun, ceremonyId, registration, taken), registration, true, candidateId, number,
                            registered);
      && waiting.epochs == begun.epochs && waiting.promotions == begun.promotions
      && waiting.candidates == begun.candidates[candidateId := Candidate(userId, None, None)]
      && waiting.pairings
         == begun.pairings[pairingId :=
              begun.pairings[pairingId].(candidateId := Some(candidateId), matchCode := number)]
  {
  }

  /** The number shown promotes the waiting candidate, and no other number does. */
  lemma HonestApproval(waiting: State, userId: string, pairingId: string, candidateId: string, entered: string,
      approved: int)
    requires userId in waiting.epochs && pairingId in waiting.pairings
    requires MayApprove(waiting, userId, pairingId, candidateId, waiting.epochs[userId], approved)
    requires OpenCandidate(waiting, candidateId, userId) && waiting.pairings[pairingId].matchCode != ""
    ensures
      var last := ApprovedBy(waiting, userId, pairingId, candidateId, waiting.epochs[userId], entered, approved);
      && pairingId in last.pairings
      && (entered == waiting.pairings[pairingId].matchCode <==> last.pairings[pairingId].approvedAt.Some?)
      && (if entered == waiting.pairings[pairingId].matchCode then
            && |last.promotions| == |waiting.promotions| + 1
            && last.promotions[|waiting.promotions|].candidateId == candidateId
          else last.promotions == waiting.promotions)
  {
  }

  /** The pairing is approved and its candidate promoted if this holds, and neither if it does not. */
  ghost predicate PromotedExactlyIf(right: bool, st: State, last: State, pairingId: string, candidateId: string) {
    && pairingId in last.pairings && (right <==> last.pairings[pairingId].approvedAt.Some?)
    && (right ==> && |last.promotions| == |st.promotions| + 1
                  && last.promotions[|st.promotions|].candidateId == candidateId)
    && (!right ==> last.promotions == st.promotions)
  }

  lemma HonestPairing(st: State, userId: string, pairingId: string, token: string, ceremonyId: string,
                      registration: nat, candidateId: string, number: string, entered: string,
                      created: int, scanned: int, taken: int, registered: int, approved: int)
    requires Invariant(st) && userId in st.epochs && 0 < |token| <= MAX_TOKEN_LENGTH && number != ""
    requires pairingId !in st.pairings && token !in st.tokens && ceremonyId !in st.ceremonies
    requires candidateId !in st.candidates && registration !in st.registrations
    requires scanned < created + PAIRING_QR_TTL_MS && taken < scanned + CHALLENGE_TTL_MS
    requires registered < scanned + PAIRING_APPROVAL_WINDOW_MS && approved < scanned + PAIRING_APPROVAL_WINDOW_MS
    ensures
      var epoch := st.epochs[userId];
      var begun := Begun(Created(st, pairingId, token, userId, created), token, ceremonyId, scanned);
      var waiting :=
        Stored(Taken(begun, ceremonyId, registration, taken), registration, true, candidateId, number, registered);
      var last := ApprovedBy(waiting, userId, pairingId, candidateId, epoch, entered, approved);
      PromotedExactlyIf(entered == number, st, last, pairingId, candidateId)
  {
    var begun := Begun(Created(st, pairingId, token, userId, created), token, ceremonyId, scanned);
    HonestClaim(st, userId, pairingId, token, ceremonyId, created, scanned);
    HonestRegistration(begun, userId, pairingId, ceremonyId, registration, candidateId, number, taken, registered);
    var waiting :=
        Stored(Taken(begun, ceremonyId, registration, taken), registration, true, candidateId, number, registered);
    HonestApproval(waiting, userId, pairingId, candidateId, entered, approved);
  }

  lemma RunAppends(st: State, trace: seq<Step>, step: Step)
    ensures Run(st, trace + [step]) == Next(Run(st, trace), step)
  {
    assert (trace + [step])[..|trace|] == trace;
  }

  lemma RunOfThree(st: State, a: Step, b: Step, c: Step)
    ensures Run(st, [a, b, c]) == Next(Next(Next(st, a), b), c)
  {
    assert Run(st, [a]) == Next(st, a) by {
      assert [] + [a] == [a];
      RunAppends(st, [], a);
    }
    assert Run(st, [a, b]) == Next(Next(st, a), b) by {
      assert [a] + [b] == [a, b];
      RunAppends(st, [a], b);
    }
    assert [a, b] + [c] == [a, b, c];
    RunAppends(st, [a, b], c);
  }

  lemma RunOfFive(st: State, a: Step, b: Step, c: Step, d: Step, e: Step)
    ensures Run(st, [a, b, c, d, e])
            == Next(Next(Next(Next(Next(st, a), b), c), d), e)
  {
    RunOfThree(st, a, b, c);
    assert Run(st, [a, b, c, d]) == Next(Run(st, [a, b, c]), d) by {
      assert [a, b, c] + [d] == [a, b, c, d];
      RunAppends(st, [a, b, c], d);
    }
    assert [a, b, c, d] + [e] == [a, b, c, d, e];
    RunAppends(st, [a, b, c, d], e);
  }

  lemma PairingSteps(st: State, userId: string, pairingId: string, token: string, ceremonyId: string,
                     registration: nat, candidateId: string, number: string, epoch: nat, entered: string,
                     created: int, scanned: int, taken: int, registered: int, approved: int)
    ensures
      var begun := Begun(Created(st, pairingId, token, userId, created), token, ceremonyId, scanned);
      var waiting :=
        Stored(Taken(begun, ceremonyId, registration, taken), registration, true, candidateId, number, registered);
      Run(st, [
        Create(pairingId, token, userId, created), Begin(token, ceremonyId, scanned),
        Take(ceremonyId, registration, taken), Store(registration, true, candidateId, number, registered),
        Approve(userId, pairingId, candidateId, epoch, entered, approved)])
      == ApprovedBy(waiting, userId, pairingId, candidateId, epoch, entered, approved)
  {
    RunOfFive(st, Create(pairingId, token, userId, created), Begin(token, ceremonyId, scanned),
              Take(ceremonyId, registration, taken), Store(registration, true, candidateId, number, registered),
              Approve(userId, pairingId, candidateId, epoch, entered, approved));
  }

  /**
   From any reachable state: a QR read in time, a verified key within the ceremony, and the number typed within the
   window promote the new key, whatever the earlier runs left behind; with any other number nothing is promoted.
   */
  lemma HonestPairingIsPromoted(st: State, userId: string, pairingId: string, token: string, ceremonyId: string,
                                registration: nat, candidateId: string, number: string, entered: string,
                                created: int, scanned: int, taken: int, registered: int, approved: int)
    requires Invariant(st) && userId in st.epochs && 1 <= |token| <= 512 && number != ""
    requires pairingId !in st.pairings && token !in st.tokens && ceremonyId !in st.ceremonies
    requires candidateId !in st.candidates && registration !in st.registrations
    requires scanned < created + 180_000 && taken < scanned + 300_000
    requires registered < scanned + 600_000 && approved < scanned + 600_000
    ensures
      var last := Run(st, [
        Create(pairingId, token, userId, created), Begin(token, ceremonyId, scanned),
        Take(ceremonyId, registration, taken), Store(registration, true, candidateId, number, registered),
        Approve(userId, pairingId, candidateId, st.epochs[userId], entered, approved)]);
      PromotedExactlyIf(entered == number, st, last, pairingId, candidateId)
  {
    PairingSteps(st, userId, pairingId, token, ceremonyId, registration, candidateId, number, st.epochs[userId],
                 entered, created, scanned, taken, registered, approved);
    HonestPairing(st, userId, pairingId, token, ceremonyId, registration, candidateId, number, entered, created,
                  scanned, taken, registered, approved);
  }

  /**
   Claims read their clock before they write: a row that has meanwhile been shown as expired, at whatever instant, is
   still promoted if its claim has read a clock before the expiry.
   */
  lemma DelayedClaimIsPromoted(st: State, userId: string, pairingId: string, token: string, ceremonyId: string,
                               registration: nat, candidateId: string, number: string, created: int, shown: int,
                               scanned: int, taken: int, registered: int, approved: int)
    requires Invariant(st) && userId in st.epochs && 1 <= |token| <= 512 && number != ""
    requires pairingId !in st.pairings && token !in st.tokens && ceremonyId !in st.ceremonies
    requires candidateId !in st.candidates && registration !in st.registrations
    requires scanned < created + 180_000 <= shown && taken < scanned + 300_000
    requires registered < scanned + 600_000 && approved < scanned + 600_000
    ensures
      var before := Next(st, Create(pairingId, token, userId, created));
      var last := Run(st, [
        Create(pairingId, token, userId, created), Begin(token, ceremonyId, scanned),
        Take(ceremonyId, registration, taken), Store(registration, true, candidateId, number, registered),
        Approve(userId, pairingId, candidateId, st.epochs[userId], number, approved)]);
      && StateOf(before.pairings[pairingId], shown) == Expired
      && |last.promotions| == |st.promotions| + 1 && last.promotions[|st.promotions|].candidateId == candidateId
  {
    HonestPairingIsPromoted(st, userId, pairingId, token, ceremonyId, registration, candidateId, number, number,
                            created, scanned, taken, registered, approved);
  }

  // ---------------------------------------------------------------- the service

  datatype Verdict = Granted | Conflict | WrongNumberRetry | WrongNumberLocked

  function VerdictOf(st: State, userId: string, pairingId: string, candidateId: string, epoch: nat, matchCode: string,
      now: int): Verdict {
    if !MayApprove(st, userId, pairingId, candidateId, epoch, now) then Conflict else
    var row := st.pairings[pairingId];
    if row.matchCode == "" || row.matchCode != matchCode then
      if row.matchAttempts + 1 >= PAIRING_MAX_MATCH_ATTEMPTS then WrongNumberLocked else WrongNumberRetry
    else if OpenCandidate(st, candidateId, userId) then Granted else Conflict
  }

  // ---------------------------------------------------------------- what each operation does, field by field

  /** Claimed by nobody yet, and not revoked. */
  ghost predicate Open(row: Pairing) {
    row.claimedAt.None? && row.revokedAt.None?
  }

  /** Neither approved nor rejected nor revoked. */
  ghost predicate Undecided(row: Pairing) {
    row.approvedAt.None? && row.rejectedAt.None? && row.revokedAt.None?
  }

  /** Within ten minutes of the claim. */
  ghost predicate InWindow(row: Pairing, now: int) {
    row.claimedAt.Some? && now < row.claimedAt.value + 600_000
  }

  /** The row of this user waits for the approval of this candidate, under the epoch it was created in. */
  ghost predicate Awaits(st: State, userId: string, pairingId: string, candidateId: string, epoch: nat, now: int) {
    && userId in st.epochs && pairingId in st.pairings
    && st.pairings[pairingId].userId == userId && st.epochs[userId] == epoch == st.pairings[pairingId].authEpoch
    && st.pairings[pairingId].candidateId == Some(candidateId)
    && Undecided(st.pairings[pairingId]) && InWindow(st.pairings[pairingId], now)
  }

  /** The candidate is revoked, unless it was promoted or revoked before. */
  ghost predicate Closed(before: map<string, Candidate>, after: map<string, Candidate>, id: string, now: int) {
    after == if id in before && before[id].promotedAt.None? && before[id].revokedAt.None?
             then before[id := Candidate(before[id].userId, None, Some(now))] else before
  }

  /** stateOf, label by label. */
  lemma LabelExactly(row: Pairing, now: int)
    requires RowInvariant(row)
    ensures StateOf(row, now) == Approved <==> row.approvedAt.Some?
    ensures StateOf(row, now) == Rejected <==> row.rejectedAt.Some?
    ensures StateOf(row, now) == HasCandidate <==> Undecided(row) && row.candidateId.Some? && InWindow(row, now)
    ensures StateOf(row, now) == Waiting <==>
      Undecided(row) && row.candidateId.None? && (row.claimedAt.Some? || now < row.expiresAt)
  {
  }

  /** A new row lives three minutes, and revokes the rows of its user that were open. */
  lemma CreatedExactly(st: State, pairingId: string, token: string, userId: string, now: int)
    requires userId in st.epochs && pairingId !in st.pairings && token !in st.tokens
    ensures
      var next := Created(st, pairingId, token, userId, now);
      && next == st.(pairings := next.pairings, tokens := st.tokens[token := pairingId])
      && next.pairings.Keys == st.pairings.Keys + {pairingId}
      && next.pairings[pairingId]
         == Pairing(userId, st.epochs[userId], now + 180_000, None, None, "", 0, None, None, None)
      && forall id :: id in st.pairings ==>
           next.pairings[id] == if st.pairings[id].userId == userId && Open(st.pairings[id])
                                then st.pairings[id].(revokedAt := Some(now)) else st.pairings[id]
  {
  }

  /** A token claims its row while that is open; the ceremony follows only in time and under the same epoch. */
  lemma BegunExactly(st: State, token: string, ceremonyId: string, now: int)
    requires ceremonyId !in st.ceremonies
    ensures
      var next := Begun(st, token, ceremonyId, now);
      if 1 <= |token| <= 512 && token in st.tokens && st.tokens[token] in st.pairings
         && Open(st.pairings[st.tokens[token]])
      then
        var id, row := st.tokens[token], st.pairings[st.tokens[token]];
        && next == st.(pairings := st.pairings[id := row.(claimedAt := Some(now))], ceremonies := next.ceremonies)
        && next.ceremonies
           == if now < row.expiresAt && row.userId in st.epochs && st.epochs[row.userId] == row.authEpoch
              then st.ceremonies[ceremonyId := Ceremony(id, row.userId, now + 300_000)] else st.ceremonies
      else next == st
  {
  }

  /** The ceremony is gone, and its registration goes on before it has expired. */
  lemma TakenExactly(st: State, ceremonyId: string, registration: nat, now: int)
    requires registration !in st.registrations
    ensures
      var next := Taken(st, ceremonyId, registration, now);
      && next == st.(ceremonies := st.ceremonies - {ceremonyId}, registrations := next.registrations)
      && next.registrations
         == if ceremonyId in st.ceremonies && now < st.ceremonies[ceremonyId].expiresAt
            then st.registrations[registration := st.ceremonies[ceremonyId]] else st.registrations
  {
    if ceremonyId !in st.ceremonies { assert st.ceremonies - {ceremonyId} == st.ceremonies; }
  }

  /** The registration is over; its candidate is stored for an undecided row of the same user, in time and epoch. */
  lemma StoredExactly(st: State, registration: nat, verified: bool, candidateId: string, matchCode: string, now: int)
    requires Invariant(st) && registration in st.registrations && candidateId !in st.candidates
    ensures
      var next := Stored(st, registration, verified, candidateId, matchCode, now);
      var user, id := st.registrations[registration].userId, st.registrations[registration].pairingId;
      var ended := st.(registrations := st.registrations - {registration});
      if verified && user in st.epochs && id in st.pairings && st.pairings[id].userId == user
         && st.pairings[id].authEpoch == st.epochs[user] && st.pairings[id].candidateId.None?
         && Undecided(st.pairings[id]) && InWindow(st.pairings[id], now)
      then
        next == ended.(
          candidates := st.candidates[candidateId := Candidate(user, None, None)],
          pairings := st.pairings[id := st.pairings[id].(candidateId := Some(candidateId), matchCode := matchCode)])
      else next == ended
  {
    var id := st.registrations[registration].pairingId;
    assert id in st.pairings ==> RowInvariant(st.pairings[id]);
  }

  /**
   What an approval does and answers. A row that does not await it is a conflict and nothing changes. With the number
   of the row the candidate is promoted if it is still open, and nothing changes otherwise. Any other number is counted,
   and the third closes the pairing and its candidate.
   */
  ghost predicate Tells(st: State, next: State, verdict: Verdict, userId: string, pairingId: string,
      candidateId: string, epoch: nat, entered: string, now: int) {
    if !Awaits(st, userId, pairingId, candidateId, epoch, now) then verdict == Conflict && next == st else
    var row := st.pairings[pairingId];
    if entered == row.matchCode && entered != "" then
      if candidateId in st.candidates && st.candidates[candidateId] == Candidate(userId, None, None) then
        && verdict == Granted
        && next == st.(
             candidates := st.candidates[candidateId := Candidate(userId, Some(now), None)],
             pairings := st.pairings[pairingId := row.(approvedAt := Some(now))],
             promotions := st.promotions + [Promotion(pairingId, candidateId, row, epoch, entered, now)])
      else verdict == Conflict && next == st
    else
      var counted := row.(matchAttempts := row.matchAttempts + 1);
      if row.matchAttempts + 1 < 3 then
        verdict == WrongNumberRetry && next == st.(pairings := st.pairings[pairingId := counted])
      else
        && verdict == WrongNumberLocked && Closed(st.candidates, next.candidates, candidateId, now)
        && next == st.(candidates := next.candidates,
                       pairings := st.pairings[pairingId := counted.(rejectedAt := Some(now))])
  }

  lemma VerdictTellsTheOutcome(st: State, userId: string, pairingId: string, candidateId: string, epoch: nat,
      matchCode: string, now: int)
    requires Invariant(st)
    ensures
      Tells(st, ApprovedBy(st, userId, pairingId, candidateId, epoch, matchCode, now),
            VerdictOf(st, userId, pairingId, candidateId, epoch, matchCode, now), userId, pairingId, candidateId, epoch,
            matchCode, now)
  {
    if pairingId in st.pairings {
      assert RowInvariant(st.pairings[pairingId]);
      LabelExactly(st.pairings[pairingId], now);
    }
  }

  /** The user's own row, unless approved, is rejected, and its candidate closed. */
  lemma RejectedExactly(st: State, userId: string, pairingId: string, now: int)
    ensures
      var next := RejectedBy(st, userId, pairingId, now);
      if pairingId in st.pairings && st.pairings[pairingId].userId == userId
         && st.pairings[pairingId].approvedAt.None?
      then
        var row := st.pairings[pairingId];
        && next == st.(pairings := st.pairings[pairingId := row.(rejectedAt := Some(now))],
                       candidates := next.candidates)
        && (row.candidateId.Some? ==> Closed(st.candidates, next.candidates, row.candidateId.value, now))
        && (row.candidateId.None? ==> next.candidates == st.candidates)
      else next == st
  {
  }

  /** The exported functions of device-pairing.ts over the tables and the ceremony store. */
  class DevicePairings {
    var epochs: map<string, nat>
    var pairings: map<string, Pairing>
    var tokens: map<string, string>
    var candidates: map<string, Candidate>
    var ceremonies: map<string, Ceremony>
    ghost var registrations: map<nat, Ceremony>
    ghost var promotions: seq<Promotion>

    constructor (epochs: map<string, nat>)
      ensures Db() == Initial(epochs) && Invariant(Db())
    {
      this.epochs, pairings, tokens, candidates, ceremonies := epochs, map[], map[], map[], map[];
      registrations, promotions := map[], [];
    }

    ghost function Db(): State
      reads this
    {
      State(epochs, pairings, tokens, candidates, ceremonies, registrations, promotions)
    }

    method CreateDevicePairing(pairingId: string, token: string, userId: string, now: int) returns (created: bool)
      requires Invariant(Db()) && pairingId !in pairings && token !in tokens
      modifies this`pairings, this`tokens
      ensures Invariant(Db()) && Db() == Created(old(Db()), pairingId, token, userId, now)
      ensures created <==> userId in epochs
      ensures created ==>
        Unclaimed(Db(), pairingId, userId) && forall id :: Unclaimed(Db(), id, userId) ==> id == pairingId
    {
      CreatedKeepsInvariant(Db(), pairingId, token, userId, now);
      if userId !in epochs { return false; }
      pairings := RevokeOpen(pairings, userId, now);
      pairings := pairings[pairingId := Pairing(userId, epochs[userId], now + PAIRING_QR_TTL_MS,
        None, None, "", 0, None, None, None)];
      tokens := tokens[token := pairingId];
      created := true;
      assert Unclaimed(Db(), pairingId, userId);
    }

    method BeginPairingRegistration(token: string, ceremonyId: string, now: int) returns (begun: bool)
      requires Invariant(Db()) && ceremonyId !in ceremonies
      modifies this`pairings, this`ceremonies
      ensures Invariant(Db()) && Db() == Begun(old(Db()), token, ceremonyId, now)
      ensures begun <==> ceremonyId in ceremonies
      ensures begun ==> TimelyClaim(Db(), ceremonies[ceremonyId].pairingId)
      ensures !Claimable(Db(), token)
    {
      BegunKeepsInvariant(Db(), token, ceremonyId, now);
      if token == "" || |token| > MAX_TOKEN_LENGTH { return false; }
      if token !in tokens || tokens[token] !in pairings { return false; }
      var id := tokens[token];
      if pairings[id].claimedAt.Some? || pairings[id].revokedAt.Some? { return false; }
      pairings := pairings[id := pairings[id].(claimedAt := Some(now))];
      var row := pairings[id];
      if row.expiresAt <= now { return false; }
      if row.userId !in epochs || epochs[row.userId] != row.authEpoch { return false; }
      ceremonies := ceremonies[ceremonyId := Ceremony(id, row.userId, now + CHALLENGE_TTL_MS)];
      begun := true;
    }

    /** finishPairingRegistration up to the verification of the response. */
    method TakeCeremony(ceremonyId: string, ghost registration: nat, now: int) returns (ceremony: Option<Ceremony>)
      requires Invariant(Db()) && registration !in registrations
      modifies this`ceremonies, this`registrations
      ensures Invariant(Db()) && Db() == Taken(old(Db()), ceremonyId, registration, now)
      ensures ceremonyId !in ceremonies
      ensures ceremony.Some? <==> registration in registrations
      ensures ceremony.Some? ==> ceremony.value == registrations[registration]
    {
      TakenKeepsInvariant(Db(), ceremonyId, registration, now);
      if ceremonyId !in ceremonies { return None; }
      var raw := ceremonies[ceremonyId];
      ceremonies := ceremonies - {ceremonyId};
      if raw.expiresAt <= now { return None; }
      registrations := registrations[registration := raw];
      ceremony := Some(raw);
    }

    /** The rest of finishPairingRegistration. */
    method StoreCandidate(ceremony: Ceremony, ghost registration: nat, verified: bool, candidateId: string,
        matchCode: string, now: int)
      returns (pairingId: Option<string>)
      requires Invariant(Db()) && candidateId !in candidates
      requires registration in registrations && registrations[registration] == ceremony
      modifies this`registrations, this`candidates, this`pairings
      ensures Invariant(Db()) && Db() == Stored(old(Db()), registration, verified, candidateId, matchCode, now)
      ensures pairingId.Some? <==> candidateId in candidates
      ensures pairingId.Some? ==>
        && verified && pairingId.value in pairings
        && pairings[pairingId.value].candidateId == Some(candidateId)
        && pairings[pairingId.value].matchCode == matchCode
    {
      StoredKeepsInvariant(Db(), registration, verified, candidateId, matchCode, now);
      registrations := registrations - {registration};
      if !verified { return None; }
      if ceremony.userId !in epochs || ceremony.pairingId !in pairings { return None; }
      var row := pairings[ceremony.pairingId];
      if row.userId != ceremony.userId || row.authEpoch != epochs[ceremony.userId]
         || row.candidateId.Some? || row.revokedAt.Some? || row.rejectedAt.Some? || row.claimedAt.None?
         || row.claimedAt.value + PAIRING_APPROVAL_WINDOW_MS <= now {
        return None;
      }
      candidates := candidates[candidateId := Candidate(ceremony.userId, None, None)];
      pairings := pairings[ceremony.pairingId := row.(candidateId := Some(candidateId), matchCode := matchCode)];
      pairingId := Some(ceremony.pairingId);
    }

    method ApproveInTransaction(userId: string, pairingId: string, candidateId: string, epoch: nat, matchCode: string,
        now: int)
      returns (verdict: Verdict)
      modifies this`pairings, this`candidates, this`promotions
      ensures Db() == ApprovedBy(old(Db()), userId, pairingId, candidateId, epoch, matchCode, now)
      ensures verdict == VerdictOf(old(Db()), userId, pairingId, candidateId, epoch, matchCode, now)
    {
      if userId !in epochs || pairingId !in pairings { return Conflict; }
      var row := pairings[pairingId];
      if row.userId != userId || epochs[userId] != epoch || row.authEpoch != epochs[userId]
         || row.candidateId != Some(candidateId) || StateOf(row, now) != HasCandidate {
        return Conflict;
      }
      if row.matchCode == "" || row.matchCode != matchCode {
        var attempts := row.matchAttempts + 1;
        if attempts >= PAIRING_MAX_MATCH_ATTEMPTS {
          candidates := RevokeCandidate(candidates, candidateId, now);
          pairings := pairings[pairingId := row.(matchAttempts := attempts, rejectedAt := Some(now))];
          return WrongNumberLocked;
        }
        pairings := pairings[pairingId := row.(matchAttempts := attempts)];
        return WrongNumberRetry;
      }
      if candidateId !in candidates || candidates[candidateId].userId != userId
         || candidates[candidateId].promotedAt.Some? || candidates[candidateId].revokedAt.Some? {
        return Conflict;
      }
      candidates := candidates[candidateId := candidates[candidateId].(promotedAt := Some(now))];
      pairings := pairings[pairingId := row.(approvedAt := Some(now))];
      promotions := promotions + [Promotion(pairingId, candidateId, row, epoch, matchCode, now)];
      verdict := Granted;
    }

    method ApprovePairing(userId: string, pairingId: string, candidateId: string, epoch: nat, matchCode: string,
        now: int)
      returns (verdict: Verdict)
      requires Invariant(Db())
      modifies this`pairings, this`candidates, this`promotions
      ensures Invariant(Db()) && Db() == ApprovedBy(old(Db()), userId, pairingId, candidateId, epoch, matchCode, now)
      ensures verdict == VerdictOf(old(Db()), userId, pairingId, candidateId, epoch, matchCode, now)
      ensures Tells(old(Db()), Db(), verdict, userId, pairingId, candidateId, epoch, matchCode, now)
    {
      ApprovedKeepsInvariant(Db(), userId, pairingId, candidateId, epoch, matchCode, now);
      VerdictTellsTheOutcome(Db(), userId, pairingId, candidateId, epoch, matchCode, now);
      verdict := ApproveInTransaction(userId, pairingId, candidateId, epoch, matchCode, now);
    }

    method RejectPairing(userId: string, pairingId: string, now: int)
      requires Invariant(Db())
      modifies this`pairings, this`candidates
      ensures Invariant(Db()) && Db() == RejectedBy(old(Db()), userId, pairingId, now)
      ensures pairingId in pairings && pairings[pairingId].userId == userId ==>
        pairings[pairingId].approvedAt.Some? || pairings[pairingId].rejectedAt.Some?
    {
      RejectedKeepsInvariant(Db(), userId, pairingId, now);
      if pairingId !in pairings || pairings[pairingId].userId != userId { return; }
      var row := pairings[pairingId];
      if row.approvedAt.Some? { return; }
      if row.candidateId.Some? { candidates := RevokeCandidate(candidates, row.candidateId.value, now); }
      pairings := pairings[pairingId := row.(rejectedAt := Some(now))];
    }
  }
}
