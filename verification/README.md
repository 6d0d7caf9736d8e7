# Verified models of Cernere's stateful protocols

Dafny 4.11 models of the parts of Cernere whose correctness spans many calls: device credential rotation and the
browser that drives it, MFA tickets and authenticator codes, single-use delegation and upload capabilities on both
sides, export, import and restore of site data, pairing of a second device, the fixed-window rate limiter, two caches of
signing keys, and the `.env` printer and parser.

`dafny verify dfyconfig.toml` checks everything.

## How the models are built

Each protocol has a state, a `Step` datatype with one constructor per atomic event, a function from state and step to
the next state, and runs as sequences of steps. The main results quantify over every run. Where the program updates
state, a class has the program's fields and methods; each method is proved to perform exactly the step function, so that
the theorems about runs are theorems about the methods.

* Atomic events are a row-locked transaction, one Redis command or script, one stretch of JavaScript between two awaits,
  and for the browser the sending, serving and delivering of a request. Where the model merges some of these into one
  step, "Left out" says so. Clocks are integer milliseconds carried by the steps. They are ordered only where a theorem
  says so: rotation, pairing, delegations and both key caches accept any clock values.
* Hashes, HMACs and key derivation are free datatype constructors, so they are injective. JSON, dates, SHA-256 of files
  and pg_dump enter as parameters of which only round trips and formats are used.
* Random ids and tokens are parameters that have not been used before.

| file | models |
|---|---|
| Wrappers, Text, Arithmetic, RedisKeys | absent values and results; `indexOf`, digits, opaque tokens and their alphabet; minima and maxima; a key with its expiry |
| DeviceToken | the printed device token |
| DeviceRotation, DeviceCredential | the rotation decision and the tables around it, with logout-all and factor changes |
| BrowserRefresh | tabs of one browser against DeviceCredential: requests, replies and cookies in flight, with and without the lock between tabs |
| Totp | base32 on an overflowing 32-bit accumulator, codes, the accepted step |
| MfaTickets | interleaved attempts on tickets, row locks, guess counters, factor changes |
| UploadAuthority, UploadClient | capabilities on the server; the receiving client with failing callbacks |
| SiteRestore, SiteBundle | restore with roll-back; bundle format, export and import |
| DevicePairing | pairing rows, candidates and promotions |
| RateLimit, CredentialRateLimit | the window counter; budgets per source and per client and source |
| GoogleKeys, EdgeKeys | key caches with interleaved lookups and fetches |
| EnvFile | trim, split, join; the generated file and the parser |

## Results about the code worth knowing

* A browser in sync with its credential (cookie current, or one generation behind with a tab holding the rotation id)
  stays so exactly until one of a few kinds of moves (`InSyncExactly`). Under the lock between tabs these are two kinds
  of 401, a rotation by a request that was given up and whose rotation id has been dropped since, and a success that
  such a rotation has overtaken (`InSyncUnderLock`); the 401s alone, where nothing given up is served
  (`InSyncPromptly`). A usable credential is lost when an account is locked between the rotation and the access
  token (`LockedAccountLosesTheSession`); without the lock, when two replies cross around the end of the grace window
  (`CrossingRepliesLoseTheSession`); and with it, when a request that its tab has given up is served late
  (`LateServiceLosesTheSession`).
* A delegation or arrival may authorise after it has expired: its validity is checked before the GETDEL and not after it
  (`LateGrant` does so at any instant before the proof expires; `GrantIsInTimeExactly` states when it is late, and that
  it is never later than the proof's five minutes).
* A pairing shown as `expired` can be shown as `waiting` again (`ExpiredLabelIsNotAbsorbing`), but is never promoted by
  claims and approvals whose clocks are not behind the instant of the label (`ExpiredIsNeverPromoted`). A claim reads
  its clock before its UPDATE, so one that has read it in time and writes after the label was shown still leads to a
  promotion (`DelayedClaimIsPromoted`).
* The comment on the restore procedure says that a failure returns the site to its previous state. That holds unless the
  rename of the old database, or the creation of a new one where there was none, takes effect and is then reported as
  failed, or the roll-back fails (`RestoreDatabase` states exactly when; `RenameWithLostAnswer` and
  `CreationWithLostAnswer` are runs). The previous contents survive in every case.
* Export can write a bundle that import does not recognise, exactly when the preamble exceeds one MiB
  (`BundleReadsBack`; `TooManyTables` is such a database), and one that import refuses, exactly when the dumped counts
  are not those taken before and after it (`ExportThenImport`; `CountsThatChangeBack` is such a run).
* At most twice the limit passes in one window length, and the bound is reached (`TwiceTheLimitIsReached`).
* Until the edge key store holds a set for a team, it does not throttle (`FirstFetchesAreUnthrottled`).
* A value reads back from a `.env` line exactly when it is trimmed and not between equal quotes, a lone quote counting
  as both (`ReadBackExactly`).

## Model

| member | source | states |
|---|---|---|
| DeviceToken.ParseUndoesFormat | server/src/auth/device-token.ts:16-39 | a formatted token parses back to its parts, dots in the secret included, if and only if the device id is a UUID and the secret is not empty |
| DeviceToken.FormatUndoesParse | server/src/auth/device-token.ts:23-34 | whatever text is accepted is the formatting of what was parsed from it |
| DeviceToken.ParsesExactly | server/src/auth/device-token.ts:16-34 | a token parses to a device id and a secret if and only if it is `cdt1`, the id in groups of 8, 4, 4, 4 and 12 hexadecimal digits of either case, and a non-empty secret, with dots between them |
| DeviceCredential.StepKeepsValid | server/src/auth/device-credential.ts:97-351 | every operation keeps every row consistent with its generation and rotation id, its fixed expiry, its owner and the owner's epochs |
| DeviceCredential.RunEvolves | server/src/auth/device-credential.ts:97-351 | in every run rows stay, keep their identity, expiry and revocation, advance by at least the grace period per generation, and users' epochs and revisions never decrease |
| DeviceCredential.ReachableRowsConsistent | server/src/auth/device-rotation.ts:135-149 | in every reachable state a row with generation above 0 holds the hash of the secret derived from its id, generation and last rotation id |
| DeviceCredential.NoAdvanceWithinGrace | server/src/auth/device-rotation.ts:100-110 | no sequence of requests with clocks before the end of the grace window changes generation or secrets, whatever they present |
| DeviceCredential.ResendReturnsLostReply | server/src/auth/device-rotation.ts:112-128 | after a rotation whose reply was lost and any run within grace, the resend gets exactly the lost secret and changes only lastUsedAt; with an empty id it is a conflict |
| DeviceCredential.RecognisedWhileCurrentOrPrevious | server/src/auth/device-rotation.ts:93-132 | a secret once current is later refused as unknown if and only if two rotations have happened, or one whose grace is over |
| DeviceCredential.OnlyTwoSecretsRecognised | server/src/auth/device-rotation.ts:93-132 | the only secrets recognised on a live row are the current one and, within grace, the one of the generation before |
| DeviceCredential.ResolveRecognisesTheSameSecrets | server/src/auth/device-credential.ts:248-272 | logout recognises a secret if and only if rotation would on the same row without its revocation and expiry |
| DeviceCredential.SameSecretAdvancesOnce | server/src/auth/device-credential.ts:166-225 | any number of requests holding one secret, in any order and with any clocks, amid any other steps, advance the generation at most once |
| DeviceCredential.SameSecretReplies | server/src/auth/device-rotation.ts:100-128 | each such request keeps or rotates before the advance, and after it is replayed, in conflict or unknown exactly by rotation id and grace |
| DeviceCredential.RotationsFitTheLifetime | server/src/auth/device-credential.ts:208-224 | the expiry never moves, and the rotations after a first one fit 30 seconds apart into what is left, with out-of-order clocks too |
| DeviceCredential.ThirtyDayRotationBudget | server/src/auth/device-credential.ts:35 | a 30-day credential first rotated not before its creation rotates at most 86400 times in any run |
| DeviceCredential.StepKeepsUsable | server/src/auth/device-credential.ts:181-185 | a usable credential stays usable across a step if and only if the step is not its revocation, its user's logout-all or factor change, or the end of its passkey |
| DeviceCredential.UnusableForEver | server/src/auth/device-credential.ts:181-185 | a credential refused for such a reason is refused in every later state |
| DeviceCredential.UsableUntilInvalidated | server/src/auth/device-credential.ts:181-350 | over any run a credential is usable at the end if and only if no invalidating step occurred |
| DeviceCredential.RefreshExactlyUntilInvalidated | server/src/auth/device-credential.ts:97-236 | after issuance and any run a refresh succeeds only without an invalidating event and within the lifetime, and then the current secret always succeeds |
| DeviceCredential.RefreshExactly | server/src/auth/device-credential.ts:154-236 | over row fields: which requests are refused and why; that a first rotation, and one whose grace is over, advances generation, hashes, rotation id and time; and that any other success writes lastUsedAt only and replies with the secret presented or the one derived before |
| DeviceCredential.AdvancesExactly | server/src/auth/device-rotation.ts:93-132 | the current secret of a usable unexpired row advances it if and only if its generation is 0 or 30 seconds have passed since its last rotation; the previous hash is then the old one and the new secret is derived from id, generation and rotation id |
| DeviceCredential.DeviceCredentials.IssueDeviceCredential | server/src/auth/device-credential.ts:97-133 | inserts the row if and only if user, passkey and evidence are current, with every field of it stated; the token returned is usable and resolves to its owner |
| DeviceCredential.DeviceCredentials.RotateDeviceSession | server/src/auth/device-credential.ts:154-236 | performs the refresh step and gives the outcome of RefreshExactly over the rows before and after; a success returns the secret that is current afterwards with the row's original expiry and the user's role |
| DeviceCredential.DeviceCredentials.RevokeDeviceCredential | server/src/auth/device-credential.ts:305-321 | revokes the user's unrevoked row, reports whether there was one, and leaves it unusable |
| DeviceCredential.DeviceCredentials.RevokeAllDeviceCredentials | server/src/auth/device-credential.ts:329-351 | revokes and counts exactly the user's unrevoked rows, advances both epochs by one, touches no other row or user, and leaves none of the user's rows usable |
| BrowserRefresh.NextInSyncExactly | server/src/http/device-handler.ts:87-133 | one move keeps the browser in sync if and only if it is not a rotation no tab remembers, a success whose cookie is behind with no holder left, a 401 that deletes the cookie, or a 401 that drops the last needed id |
| BrowserRefresh.ElsewhereKeepsInSync | server/src/auth/device-credential.ts:97-351 | events elsewhere, refreshes of other devices included, keep the browser in sync |
| BrowserRefresh.InSyncExactly | frontend/src/lib/browser-refresh.ts:6-45 | in every run of any number of tabs, with requests and replies lost, given up, served late or out of order, the browser stays in sync exactly until the first such move |
| BrowserRefresh.LosesUnderLockExactly | frontend/src/lib/browser-refresh.ts:38-45 | under the lock between tabs a move loses the browser if and only if it delivers a 401 that deletes the cookie, or a plain 401 while the cookie is behind and no other tab holds the id, or serves a given-up request that rotates with an id no tab remembers, or delivers a success that the server has rotated past with no other holder left |
| BrowserRefresh.InSyncUnderLock | frontend/src/lib/browser-refresh.ts:38-45 | so in every run under the lock the browser stays in sync exactly until such a move, whatever is lost and whoever gives up |
| BrowserRefresh.InSyncPromptly | frontend/src/lib/browser-refresh.ts:38-45 | and in every such run in which nothing given up is served, exactly until such a 401 |
| BrowserRefresh.SignInIsInSync | server/src/auth/device-credential.ts:97-133 | a credential that is issued and stored as the cookie starts such runs in sync |
| BrowserRefresh.AnswersInSync | server/src/http/device-handler.ts:99-133 | whatever becomes of the request, the reply to a browser in sync deletes the cookie if and only if the request was not turned away and the credential is absent, invalid or expired, or the cookie is behind with the grace over; it is a conflict exactly when another tab holds the id that resolves it; otherwise it fails or succeeds as the session step does, and a success carries the current secret |
| BrowserRefresh.SentExactly | frontend/src/lib/browser-refresh.ts:7-13 | a tab sends only while the browser is marked as a device, or to retry; the request carries the cookie of now and the rotation id that the tab has stored, a new one only where it had none |
| BrowserRefresh.ReplyExactly | server/src/http/device-handler.ts:87-133 | the reply to any request over row fields: a failure for one turned away, a plain 401 without a token, a conflict, a 401 that deletes the cookie for each other refusal and for nothing else, and a success carries the current secret |
| BrowserRefresh.ExchangeExactly | server/src/http/device-handler.ts:87-133 | one request answered at once, for every browser, credential and aftermath: which cookie, rotation ids and device mark the browser has afterwards, over the row's fields; a request that is turned away changes nothing but the stored id |
| BrowserRefresh.FailuresKeepInSync | server/src/http/device-handler.ts:87-92 | a request that is turned away leaves the browser in sync always, and one that fails on the server if and only if its refresh was not refused or was a conflict |
| BrowserRefresh.OnlyMissedRepliesLoseTheSession | frontend/src/lib/browser-refresh.ts:6-23 | after every run that has not lost the browser, while the credential is usable and unexpired, it must use its passkey if and only if its cookie is behind and the grace is over, and a conflict means that another tab holds the id that resolves it |
| BrowserRefresh.OneReplySettlesAllTabs | frontend/src/lib/browser-refresh.ts:9-21 | when the tab holding the id gets its reply, it drops the id, the cookie is current, and another tab's retry within grace is kept |
| BrowserRefresh.LockedAccountLosesTheSession | server/src/auth/jwt.ts:48-61 | from every settled browser, one tab under the lock with nothing lost: a rotation followed by an uncoded 401 strands the browser although its credential stays usable |
| BrowserRefresh.CrossingRepliesLoseTheSession | frontend/src/lib/browser-refresh.ts:41 | from every settled browser, two tabs without the lock and nothing lost: replies that cross around the end of the grace window strand it |
| BrowserRefresh.LateServiceLosesTheSession | frontend/src/lib/browser-refresh.ts:10-11 | from every settled browser, one tab and the lock kept throughout: a request given up and served after the next one strands it |
| BrowserRefresh.RefreshIsMoves | frontend/src/lib/browser-refresh.ts:6-23 | a call of the refresh loop ends where its moves lead: a first 409 has changed nothing, and the other attempt decides |
| BrowserRefresh.RefreshIsOrderly | frontend/src/lib/browser-refresh.ts:6-45 | the moves of a call are fair and, where nothing is waited for when it starts, keep the lock, serve nothing given up and leave nothing waited for |
| BrowserRefresh.RefreshInSyncExactly | frontend/src/lib/browser-refresh.ts:6-45 | so such a call from a browser in sync keeps it in sync exactly until a losing 401 |
| BrowserRefresh.BrowserSession.Session | server/src/http/device-handler.ts:87-133 | the route rotates and answers with the status and cookie of the model, for every aftermath; ReplyExactly says which over row fields |
| BrowserRefresh.BrowserSession.FetchSession | frontend/src/lib/browser-refresh.ts:10-19 | one fetch acts on server, cookie and status as the model says for each way it can be lost, and a 409 leaves the server as it was |
| BrowserRefresh.BrowserSession.DeviceRefresh | frontend/src/lib/browser-refresh.ts:6-23 | the loop stores the id first, retries once and only on a conflict, drops the id after a success and after a 401, and leaves server and browser as the deciding attempt does |
| Totp.EmitSymbols | server/src/auth/mfa-totp.ts:14-17 | the inner loop moves complete groups of five bits from accumulator to text without changing the bit stream |
| Totp.EncodeSecret | server/src/auth/mfa-totp.ts:7-20 | the text's bit stream is the input's, less a last group shorter than five, although the accumulator overflows |
| Totp.DecodeSymbols | server/src/auth/mfa-totp.ts:24-35 | the bytes' bit stream is the text's, less a last group shorter than eight |
| Totp.DecodeSecret | server/src/auth/mfa-totp.ts:22-36 | accepts exactly 32 symbols of the alphabet and yields 20 bytes with the same bit stream |
| Totp.EncodeThenDecode | server/src/auth/mfa-totp.ts:7-36 | decoding an encoding yields a prefix of the input, and the input itself if and only if its length is a multiple of five |
| Totp.StoredSecretReadsBack | server/src/auth/mfa-totp.ts:7-36 | a new secret has 32 symbols and decodes to the 20 bytes drawn |
| Totp.CodeDenotesTruncatedDigest | server/src/auth/mfa-totp.ts:38-44 | a code is six digits that denote the dynamically truncated digest modulo one million; the truncation reads inside the 20 bytes |
| Totp.TruncatedExactly | server/src/auth/mfa-totp.ts:38-44 | the offset is the last byte modulo 16, and the word is made of the four bytes from there on, the first highest, modulo 2^31 |
| Totp.LatestMatch | server/src/auth/mfa-totp.ts:51-58 | the loop finds the latest step of the three-step window whose code matches and which lies above the last accepted step |
| Totp.VerifyTotpStep | server/src/auth/mfa-totp.ts:47-62 | None for a malformed code or a negative time, an error for a bad secret, otherwise that latest step |
| Totp.AcceptedStepsIncrease | server/src/auth/mfa-totp.ts:46-57 | for any guesses and clocks accepted steps strictly increase, so none is accepted twice |
| Totp.AcceptancesAreBounded | server/src/auth/mfa-totp.ts:51-57 | up to time t at most floor(t / 30000) + 1 minus the enrolment step guesses are accepted |
| MfaTickets.RunKeepsTickets | server/src/auth/mfa-records.ts:31-102 | in every interleaving live tickets and attempts carry the record as issued, and a completed ticket is gone |
| MfaTickets.OneCompletionPerTicket | server/src/auth/mfa-challenge.ts:67-97 | a ticket completes at most once, as issued, a second or more before its end, under the snapshot it was issued for, with an allowed factor, and with the emailed code or onsite satisfaction that Redis holds at the consume |
| MfaTickets.ReplacedCodeIsRefused | server/src/auth/mfa-challenge.ts:86-91 | an attempt whose emailed code is replaced between check and consume completes nothing and leaves the ticket alive |
| MfaTickets.RunKeepsLocks | server/src/auth/mfa-user.ts:18-35 | in every run a verified attempt holds its user's row lock, the row is as it was read, and what was checked of it still stands |
| MfaTickets.AtMostFiveGuesses | server/src/auth/mfa-records.ts:104-118 | at most five guesses are admitted for a ticket during its life, because its counter's window cannot end before the ticket |
| MfaTickets.FactorChangeEndsOlderTickets | server/src/auth/mfa-user.ts:27-35 | once the revision has moved past a ticket's, no later run completes that ticket |
| MfaTickets.AcceptedStepsRise | server/src/auth/mfa-challenge.ts:82-93 | in every interleaving, while the authenticator is neither enrolled anew nor removed, accepted steps lie above the stored one and strictly increase |
| MfaTickets.TotpAcceptancesAreBounded | server/src/auth/mfa-challenge.ts:82-93 | in every interleaving with clocks up to t, under one authenticator, at most floor(t / 30000) + 1 minus the stored step authenticator codes are accepted |
| MfaTickets.AuthenticatorCompletionsAreEarned | server/src/auth/mfa-challenge.ts:80-84 | in every run each authenticator completion has a six-digit code that the secret gives for a step within one of the check's period, above the user's last accepted step, or, for an enrolment, under a secret that setup had offered for this ticket |
| MfaTickets.CountExactly | server/src/auth/mfa-records.ts:104-118 | an onsite attempt on an onsite ticket counts as a poll and takes the satisfaction Redis holds; any other counts for its user and then its ticket, in windows of 15 and 5 minutes, and is admitted if and only if fewer than 20 and 5 came before it |
| MfaTickets.EvidenceIsStoredExactly | server/src/auth/mfa-settings.ts:72-76 | an emailed code or an offered secret is stored if and only if its ticket has a second left, for the whole seconds that it has, and a secret only where none is live |
| MfaTickets.CheckExactly | server/src/auth/mfa-challenge.ts:74-90 | an admitted attempt is verified and locks the user's row if and only if snapshot, factors and code or evidence are as they must be, stated over their fields, and is refused otherwise |
| MfaTickets.CommitExactly | server/src/auth/mfa-challenge.ts:90-94 | a verified attempt ends and releases its lock; its ticket and evidence are deleted if and only if they are unchanged with a second left, and the row and log change if and only if moreover the callback succeeds |
| MfaTickets.LoginCompletesExactly | server/src/auth/mfa-challenge.ts:67-97 | a login from the ticket to its end, from any state within the limits and with nothing in between: it completes and stores a later step if and only if the code is that of an unused step of the window, and otherwise changes neither row nor log |
| MfaTickets.MfaService.IssueMfaTicket | server/src/auth/mfa-records.ts:31-35 | stores the record with the user's epoch, revision and factors for 300 seconds, readable at once |
| MfaTickets.MfaService.ReadMfaTicket | server/src/auth/mfa-records.ts:42-78 | returns the ticket if and only if it is live and its purpose, binding and project match, with the record as it was stored |
| MfaTickets.MfaService.ReadOnsiteEvidence | server/src/auth/mfa-challenge.ts:43-48 | counts the poll, and admits the attempt with the satisfaction it read, which the consume then pins |
| MfaTickets.MfaService.CountMfaAttempt | server/src/auth/mfa-records.ts:104-118 | counts for the user and then for the ticket, and admits the attempt if and only if the hits in both windows are within their limits |
| MfaTickets.MfaService.ConsumeMfaTicket | server/src/auth/mfa-records.ts:82-124 | succeeds if and only if a second is left and ticket and pinned evidence are unchanged, deletes all four keys, and cannot succeed again |
| MfaTickets.MfaService.CheckUnderLock | server/src/auth/mfa-challenge.ts:74-90 | takes the row lock and keeps it if and only if the attempt deserves it, stated over the ticket, the row, the code and the evidence; what is kept of the user and the evidence is what the checks established |
| MfaTickets.MfaService.ConsumeAndUpdate | server/src/auth/mfa-challenge.ts:90-94 | consumes, updates the row and releases the lock in order; a completion is a good one, and a failing callback keeps the consume but not the row |
| UploadAuthority.RunKeepsInvariant | server/src/auth/composite-upload-store.ts:31-75 | in every run live proofs and reservations are as issued, and every grant and spending is justified |
| UploadAuthority.TokensAreSingleUse | server/src/auth/action-proof.ts:43-74 | every token grants at most once, for exactly the record it was issued for, which was valid when it was checked |
| UploadAuthority.GrantIsInTimeExactly | server/src/auth/composite-upload-store.ts:43-57 | every grant comes less than 300 seconds after its proof was written, and falls into the record's validity if and only if the GETDEL's clock is before the record's end |
| UploadAuthority.LateGrant | server/src/auth/composite-upload-store.ts:43-61 | for every instant from the record's end to the end of proof and deadline, a run that grants and reserves then, after a check in time |
| UploadAuthority.ReceiptsAreSingleUse | server/src/auth/composite-upload-store.ts:62-75 | every receipt is spent by at most one finalize or cancel, for the reservation and request it was made for, before the deadline, and stems from a grant of its arrival |
| UploadAuthority.BurnedTokenGrantsNothing | server/src/auth/composite-upload-store.ts:54-57 | a removed proof never comes back, and no later run grants anything to its token |
| UploadAuthority.AttemptedTokenGrantsNothing | server/src/auth/action-proof.ts:53-74 | after any attempt that reaches the GETDEL, right or wrong, no later run grants anything to the token |
| UploadAuthority.AttemptedReceiptIsSpentNoMore | server/src/auth/composite-upload-store.ts:62-75 | after any attempt to spend a receipt, right or wrong, no later run spends it |
| UploadAuthority.BoundsOnlyNarrow | server/src/auth/composite-upload-store.ts:43-61 | limits are at most the arrival's and the route's, the body still fits, the deadline is the smaller of source expiry and timeout, and from its SET the entry lives for what was left to the deadline and less than a second longer |
| UploadAuthority.CeilSecondsBounds | server/src/auth/composite-upload-store.ts:58 | rounding a lifetime up to seconds never ends it early and adds less than a second |
| UploadAuthority.BegunExactly | server/src/auth/composite-upload-store.ts:43-61 | over fields and clocks: nothing happens unless the arrival is valid at the check and when begun, for its own target and within the route; then the token is gone, granted exactly if its proof was live and for this arrival, and the reservation with the smaller limits and deadline is stored exactly if moreover time is left and the write succeeds |
| UploadAuthority.ActionProofStore.Consume | server/src/auth/action-proof.ts:53-74 | succeeds if and only if the proof is live and the expectation equal, and removes it in either case |
| UploadAuthority.CapabilityStores.IssueArrival | server/src/auth/composite-upload-store.ts:31-37 | succeeds if and only if the arrival is valid, stated over its fields, and has time left when it is stored; the proof is then for its upload by its source at its target and lives 300 seconds |
| UploadAuthority.CapabilityStores.Begin | server/src/auth/composite-upload-store.ts:43-61 | performs the step of BegunExactly, touches nothing where the arrival may not be reserved by this target, and returns the reservation if and only if it was stored |
| UploadAuthority.CapabilityStores.Consume | server/src/auth/composite-upload-store.ts:62-75 | takes the receipt before any check, and returns the reservation if and only if it is live, well formed and in time, and target and request are its own |
| UploadAuthority.CapabilityStores.IssueDelegation | server/src/auth/composite-delegation-store.ts:49-54 | accepts if and only if the record is valid now, stated over its fields, and stores proof and record with their lifetimes |
| UploadAuthority.CapabilityStores.ConsumeDelegation | server/src/auth/composite-delegation-store.ts:61-71 | grants if and only if the record was valid at the check and a live proof for it is there at the GETDEL, takes the token in either case, and records both instants |
| UploadClient.DigestCapturedBody | packages/composite/src/upload-body.ts:21-46 | returns a digest if and only if bounds hold, the stream yields exactly the declared size and the owner stays; the digest of the parts is that of the whole; and the reader is cancelled exactly where reading has begun and does not come to its end |
| UploadClient.Attempt | packages/composite/src/upload.ts:67-95 | for every script of failures, a malformed digest included: each call is made if and only if all before it succeeded and the owner was current at every check on the way, what is held when it stops, and that it succeeds exactly if execute is reached and returns |
| UploadClient.Release | packages/composite/src/upload.ts:96-102 | disposes first and then cancels, each if and only if held, and cancels even if disposing throws |
| UploadClient.RunExecutesOnlyReserved | packages/composite/src/upload.ts:81-95 | execute is called at most once, on content with the reserved digest and length, directly after authorization, which directly follows finalize with that digest |
| UploadClient.RunDisposesOnce | packages/composite/src/upload.ts:96-100 | a disposable capture that was returned is disposed exactly once |
| UploadClient.RunCancelsExactly | packages/composite/src/upload.ts:92-101 | cancel is sent once if and only if a receipt is held whose finalization was not seen, and never before the disposal |
| UploadClient.Run | packages/composite/src/upload.ts:57-103 | each of begin, capture, finalize, authorize and execute is called if and only if the script alone leads that far, nothing at all where token, classification, limits or operation are unacceptable; the three properties together for every pattern of failures; and the call succeeds if and only if execute is reached and returns and the disposal does |
| SiteRestore.EveryDifferenceIsReported | server/scripts/site-data/row-counts.ts:12-17 | every table whose counts differ, absence included, is reported with both counts |
| SiteRestore.NoMismatchMeansEqual | server/scripts/site-data/row-counts.ts:12-17 | nothing is reported if and only if the counts are equal |
| SiteRestore.RollBack | server/scripts/site-data/restore-procedure.ts:52-59 | for every way its statements can fail: what is then in the databases, and exactly when it reports success |
| SiteRestore.RollBackOutcome | server/scripts/site-data/restore-procedure.ts:52-59 | after a failed restore, the roll-back fails if and only if a drop that is due is not done or the way back is barred, and then the old database is parked under its backup name |
| SiteRestore.RestoreDatabase | server/scripts/site-data/restore-procedure.ts:30-50 | success if and only if nothing on the way fails and the counts match, with the old data under the backup name; on failure the old data survives; the databases are as before exactly when no effect was reported as a failure; when a name is taken, the counts differ or the roll-back fails, each exactly, and what a failed roll-back leaves |
| SiteRestore.RenameWithLostAnswer | server/scripts/site-data/restore-procedure.ts:30-50 | a run in which the first rename takes effect and is reported as failed: the site is gone from its name |
| SiteRestore.CreationWithLostAnswer | server/scripts/site-data/restore-procedure.ts:30-50 | a run in which the creation takes effect and is reported as failed: an empty database stays behind |
| SiteBundle.BuiltHeaderIsAccepted | server/scripts/site-data/bundle-header.ts:42-72 | every header the builder makes is accepted after printing and parsing and reads as what was built |
| SiteBundle.BuiltHeaderExactly | server/scripts/site-data/bundle-header.ts:42-58 | a header is built if and only if its labels and counts are valid, and every member of it says what was put in |
| SiteBundle.BundleReadsBack | server/scripts/site-data/bundle-file.ts:61-104 | reading a written bundle gives the header and an offset from which the bytes are exactly the dump, if and only if the preamble fits one MiB |
| SiteBundle.DigestFile | server/scripts/site-data/bundle-file.ts:51-59 | however the stream is cut, digest and length of the whole |
| SiteBundle.WriteBundle | server/scripts/site-data/bundle-file.ts:87-104 | never overwrites; a failed write leaves the files as they were unless unlink fails too |
| SiteBundle.ExportBody | server/scripts/site-data/export-data.ts:31-43 | succeeds if and only if undisturbed with equal counts, and the file is then the bundle of the dump; each error has its condition |
| SiteBundle.ExportData | server/scripts/site-data/export-data.ts:26-47 | exactly when it succeeds and for what it is refused; existing paths are untouched, the partial dump is removed, and a failed export leaves nothing unless unlink fails |
| SiteBundle.ImportPlanExactly | server/scripts/site-data/bundle-header.ts:60-72 | over the bytes: a file is accepted if and only if its SHA-256 is the expected one, it is the magic line, one line of JSON within a MiB and a dump, service and version are these, every header member is valid, and digest and length of the dump are the header's; each refusal has its condition, in order |
| SiteBundle.ImportData | server/scripts/site-data/import-data.ts:20-34 | databases change, or the import succeeds, only for such a file; each refusal is given exactly under its condition and changes nothing; success if and only if moreover the restore is smooth, and then contents and counts are the bundle's; no other database is touched |
| SiteBundle.ExportedBundleImports | server/scripts/site-data/import-data.ts:20-32 | every exported bundle whose header fits is importable, with the dumped bytes and the counts taken before the dump |
| SiteBundle.ExportThenImport | server/scripts/site-data/export-data.ts:26-47 | export then import moves the dumped contents if and only if neither is disturbed, the header fits, and the dump has the counts taken before it; the target's old contents survive in any case |
| SiteBundle.CountsThatChangeBack | server/scripts/site-data/export-data.ts:31-43 | a row deleted during the dump and restored after it: the export succeeds and the import refuses the bundle |
| SiteBundle.TooManyTables | server/scripts/site-data/bundle-file.ts:61-104 | a database of a million tables: the export succeeds and the import does not recognise the bundle |
| DevicePairing.RunKeepsInvariant | server/src/auth/device-pairing.ts:77-304 | every run keeps the invariant, and rows only evolve: claim, candidate and outcomes are set once and kept |
| DevicePairing.OutcomesAreExclusive | server/src/auth/device-pairing.ts:82-97 | in every run no row is approved and rejected, and a user has at most one unclaimed unrevoked row |
| DevicePairing.PromotionsAreEarned | server/src/auth/device-pairing.ts:258-287 | every promotion is of the row's own candidate, with the row's number typed, fewer than three wrong numbers, within ten minutes of the claim and under the epoch of creation, and no candidate or row is promoted twice |
| DevicePairing.RejectionIsFinal | server/src/auth/device-pairing.ts:268-277 | after a rejection or the third wrong number no later run promotes the candidate |
| DevicePairing.EpochChangeIsFinal | server/src/auth/device-pairing.ts:263-267 | once the user's epoch has moved past the row's, no later run promotes the candidate |
| DevicePairing.LogoutEndsPairings | server/src/auth/device-pairing.ts:263-267 | whenever in a run a user's epoch moves on, no pairing of the user's from before is ever promoted afterwards |
| DevicePairing.ExpiredIsNeverPromoted | server/src/auth/device-pairing.ts:206-216 | a row shown as expired is never approved by later steps, if claims and approvals read clocks not behind that instant, although it may be claimed |
| DevicePairing.ExpiredLabelIsNotAbsorbing | server/src/auth/device-pairing.ts:116-123 | a claim after expiry turns the label from expired into waiting |
| DevicePairing.RunKeepsClaimedInTime | server/src/auth/device-pairing.ts:116-147 | a ceremony or candidate exists only for a row claimed before its QR expired |
| DevicePairing.HonestPairingIsPromoted | server/src/auth/device-pairing.ts:77-287 | from any reachable state a timely scan, registration and approval promote the new key if and only if the number typed is the one shown |
| DevicePairing.DelayedClaimIsPromoted | server/src/auth/device-pairing.ts:114-123 | from any reachable state, a row shown as expired at whatever instant is promoted if its claim has read its clock before the expiry |
| DevicePairing.LabelExactly | server/src/auth/device-pairing.ts:206-216 | when each of the five labels is shown, over the fields of a row |
| DevicePairing.VerdictTellsTheOutcome | server/src/auth/device-pairing.ts:251-291 | what an approval does to every table and what it answers, over the fields of row, candidate and epoch: a conflict changes nothing, the right number promotes an open candidate, and any other number is counted, the third closing row and candidate |
| DevicePairing.CreatedExactly | server/src/auth/device-pairing.ts:77-99 | the new row with its three minutes, and the revocation of exactly the user's open rows |
| DevicePairing.BegunExactly | server/src/auth/device-pairing.ts:108-149 | a token claims its row if and only if that is open, and a ceremony of five minutes follows if and only if the row is in time and its epoch current |
| DevicePairing.TakenExactly | server/src/auth/device-pairing.ts:159-168 | the ceremony is gone in any case, and its registration goes on if and only if it was there and in time |
| DevicePairing.StoredExactly | server/src/auth/device-pairing.ts:169-204 | the candidate and its number are stored if and only if the response has verified and the row is the user's own, undecided, without a candidate, within ten minutes of its claim and of the current epoch |
| DevicePairing.RejectedExactly | server/src/auth/device-pairing.ts:294-304 | the user's own row is rejected and its candidate closed unless the row was approved, and nothing else changes |
| DevicePairing.DevicePairings.CreateDevicePairing | server/src/auth/device-pairing.ts:77-99 | revokes the user's open row and leaves the new one as the only open one |
| DevicePairing.DevicePairings.BeginPairingRegistration | server/src/auth/device-pairing.ts:108-149 | claims the row whatever follows, so that the token is never claimable again, and starts a ceremony only for a timely claim |
| DevicePairing.DevicePairings.TakeCeremony | server/src/auth/device-pairing.ts:159-168 | the GETDEL removes the ceremony in any case, and goes on with it only within its time |
| DevicePairing.DevicePairings.StoreCandidate | server/src/auth/device-pairing.ts:169-204 | ends the registration in any case, and stores candidate and number only after verification and all checks under the locks |
| DevicePairing.DevicePairings.ApprovePairing | server/src/auth/device-pairing.ts:251-291 | performs the approval step and answers as VerdictTellsTheOutcome states over the tables before and after |
| DevicePairing.DevicePairings.RejectPairing | server/src/auth/device-pairing.ts:294-304 | leaves the user's own row rejected unless approved before, and its candidate closed |
| RateLimit.CallsKeepWindow | server/src/redis.ts:127-145 | in every trace the counter describes the open window, and what passed in it and around it is bounded |
| RateLimit.PassedCallsAreBounded | server/src/redis.ts:127-145 | at most N calls pass in a window, at most 2N - 1 in any half-open and 2N in any closed interval of one window length |
| RateLimit.TwiceTheLimitIsReached | server/src/redis.ts:127-145 | the closed bound is reached by a trace, for every limit and window |
| CredentialRateLimit.SubjectIsRecoverable | server/src/http/rate-limit-subject.ts:26-40 | client id and source are determined by their concatenation, whatever the client id contains |
| CredentialRateLimit.KeysAreDistinct | server/src/auth/credential-rate-limit.ts:21-39 | keys of different endpoints, clients, sources or kinds never coincide |
| CredentialRateLimit.VerdictsDependOnOwnRequests | server/src/auth/credential-rate-limit.ts:25-39 | in every run a source gets the verdicts it would get if no other source sent anything |
| CredentialRateLimit.SuccessesKeepFailureBudgets | server/src/auth/credential-rate-limit.ts:25-32 | any number of requests with the right credential leave every failure budget as it was |
| CredentialRateLimit.CredentialLimiter.Eval | server/src/redis.ts:127-140 | counts one more hit on this key alone, in its window or opening one, atomically |
| CredentialRateLimit.CredentialLimiter.BeforeCredentialCheck | server/src/auth/credential-rate-limit.ts:25-32 | uses one unit of the source's five-minute budget and admits if and only if there were fewer than 120 hits on it and fewer than 10 failures of this client and source |
| CredentialRateLimit.CredentialLimiter.RecordCredentialFailure | server/src/auth/credential-rate-limit.ts:35-39 | uses one unit of this client's and source's five-minute failure budget and nothing else |
| GoogleKeys.ReadKeys | server/src/auth/google-signing-keys.ts:42-60 | accepts a list if and only if it has 1 to 32 well-formed strong keys with distinct ids, and every key is then found under its own id |
| GoogleKeys.ByKidFindsEveryEntry | server/src/auth/google-signing-keys.ts:47-60 | in a list without repeated ids every entry is found under its id |
| GoogleKeys.StrongExactly | server/src/auth/google-signing-keys.ts:48-56 | the checks on an entry accept exactly RSA keys for RS256 signatures of 2048 bits or more, with an id and base64url numbers within their lengths |
| GoogleKeys.FetchedExactly | server/src/auth/google-signing-keys.ts:38-66 | a fetch brings a set if and only if the response is a usable list, and in it exactly the keys published there under their ids |
| GoogleKeys.FreshExactly | server/src/auth/google-signing-keys.ts:61-66 | a set counts as unexpired if and only if its response is fresh in the sense of section 4.2 of RFC 9111 and at most an hour old |
| GoogleKeys.LookupsExactly | server/src/auth/google-signing-keys.ts:16-30 | in every run a lookup is answered from the set fetched last if that has the key and has not expired, and nothing else happens; otherwise it waits if the last fetch has not settled, fails if and only if some fetch has started within the minute before it, and else starts one |
| GoogleKeys.FirstLookupIsAnswered | server/src/auth/google-signing-keys.ts:16-36 | the lookup that starts the first fetch gets the key published under its id in the response, whenever that arrives, and the set is cached |
| GoogleKeys.FetchesAreSerialAndSpaced | server/src/auth/google-signing-keys.ts:16-31 | in every interleaving, with any clocks, fetches never overlap and the k-th after one starts at least k minutes later |
| GoogleKeys.EveryKeyIsJustified | server/src/auth/google-signing-keys.ts:16-36 | in every interleaving every key handed out was published under its id in the response of a logged fetch: the one its caller waited for, or the last usable one that had landed, before it expired |
| GoogleKeys.GoogleSigningKeys.Lookup | server/src/auth/google-signing-keys.ts:16-31 | performs the lookup step: served exactly from an unexpired cached key, failed exactly within the retry time with nothing pending, and otherwise waiting, with a fetch started if none is pending |
| GoogleKeys.GoogleSigningKeys.Land | server/src/auth/google-signing-keys.ts:38-72 | replaces the cached set if and only if the response is usable, with exactly the published keys and the lifetime of FreshExactly, and keeps the old one otherwise |
| GoogleKeys.GoogleSigningKeys.Settle | server/src/auth/google-signing-keys.ts:29-31 | clears the pending fetch and gives each caller that waited the key the response has under its id, and nothing if it has none |
| EdgeKeys.FetchJwks | server/src/auth/edge-jwks.ts:92-113 | succeeds if and only if the list has a usable key, and maps each id as the list says |
| EdgeKeys.LastUsableWins | server/src/auth/edge-jwks.ts:101-110 | for an id the last usable entry counts, and unusable ones never do |
| EdgeKeys.HeldTeamsAreThrottled | server/src/auth/edge-jwks.ts:41-90 | once a set is held for a team, all later fetches for it start a minute or more apart and after the last attempt, in every interleaving and with any clocks |
| EdgeKeys.StartsExactly | server/src/auth/edge-jwks.ts:48-90 | a lookup starts one fetch, and records the attempt, if and only if no set fetched within six hours has its key and no set is held or a minute has passed; otherwise nothing changes |
| EdgeKeys.FirstFetchesAreUnthrottled | server/src/auth/edge-jwks.ts:82-87 | before a set is held any number of fetches may start at one instant |
| EdgeKeys.EdgeJwks.GetEdgeSigningKey | server/src/auth/edge-jwks.ts:41-62 | starts a fetch exactly then, and otherwise answers with the held key if that is recent or may be stale |
| EdgeKeys.EdgeJwks.Arrive | server/src/auth/edge-jwks.ts:62-70 | a usable reply replaces the team's set alone, dated by the lookup, and answers from it; a failure keeps every set and answers from what the lookup saw if that is recent or may be stale |
| EnvFile.TrimStrips | packages/env-cli/src/env-file.ts:22 | trimming removes white space only, and all of it at both ends |
| EnvFile.SpaceExactly | packages/env-cli/src/env-file.ts:22 | white space is the 25 code points of ECMAScript |
| EnvFile.SplitUndoesJoin | packages/env-cli/src/env-file.ts:21 | lines without line breaks survive joining and splitting |
| EnvFile.ParseLine | packages/env-cli/src/env-file.ts:22-33 | the loop body's early exits and slices give the line's assignment |
| EnvFile.ParseEnvFile | packages/env-cli/src/env-file.ts:19-37 | the loop assigns every line in order |
| EnvFile.AssignmentExactly | packages/env-cli/src/env-file.ts:22-34 | any line assigns a value to a key if and only if it is the key, an equals sign and a text with white space around each, the key without equals signs and not beginning a comment, and the value what the text has between equal quotes, or the text itself |
| EnvFile.ParsedExactly | packages/env-cli/src/env-file.ts:19-37 | the variables of any file: each key has the value of the last line that assigns it, `__proto__` excepted |
| EnvFile.AssignmentLine | packages/env-cli/src/env-file.ts:22-34 | a printed key and value parse to the key and the value read back |
| EnvFile.ReadBackExactly | packages/env-cli/src/env-file.ts:27-33 | a value reads back as itself if and only if it is trimmed and not quoted |
| EnvFile.LineBreaksNeverReadBack | packages/env-cli/src/env-file.ts:19-37 | no file whatsoever gives a variable a value with a line break |
| EnvFile.LastSecretWins | packages/env-cli/src/env-generator.ts:58-61 | of secrets with one key the last counts |
| EnvFile.RuntimeKeysExactly | packages/env-cli/src/env-generator.ts:97-99 | the runtime keys are the secret keys that are not found in the infra object, inherited members included |
| EnvFile.RuntimeKeysInOrder | packages/env-cli/src/env-generator.ts:97-99 | runtime keys come in the order of their secrets, repetitions included |
| EnvFile.InfraValues | packages/env-cli/src/env-generator.ts:78-84 | an infra key stands for its last secret or its default, unless it is a bootstrap key |
| EnvFile.GeneratedFileParses | packages/env-cli/src/env-generator.ts:53-116 | for single-line input, parsing the generated file gives the effective infra values overlaid by the bootstrap entries, each read back, and nothing else |
| EnvFile.FileLayout | packages/env-cli/src/env-generator.ts:65-108 | the generated file section by section: every infra key with its last secret or default, the six bootstrap lines, and a commented line for every runtime key, in order |
| EnvFile.BootstrapValues | packages/env-cli/src/env-generator.ts:86-95 | each bootstrap key stands for its own value, whatever the infra keys are |
| EnvFile.ParsesToIntendedExactly | packages/env-cli/src/env-generator.ts:53-116 | the values are exactly the intended ones if and only if each is trimmed and not quoted |
| EnvFile.RuntimeSecretsAreNotAssigned | packages/env-cli/src/env-generator.ts:97-108 | a runtime secret is not assigned, and where it bears a bootstrap name the bootstrap value is |
| EnvFile.BuildDotenv | packages/env-cli/src/env-generator.ts:53-116 | the loops print the file of these theorems, and the counts are right |
| EnvFile.SavedBootstrapLoadsAs | packages/env-cli/src/env-file.ts:47-107 | what a saved bootstrap loads as, for all single-line values, defaults and environments |
| EnvFile.SavedBootstrapLoadsExactly | packages/env-cli/src/env-file.ts:47-107 | saved nonempty values load unchanged if and only if each is trimmed and not quoted |
| EnvFile.LoadedExactly | packages/env-cli/src/env-file.ts:47-88 | a bootstrap is loaded if and only if the file gives its three credentials, or no bootstrap and the environment does, with the two other values given or by default |
| EnvFile.SecretsFile.SaveBootstrap | packages/env-cli/src/env-file.ts:93-107 | the file written parses to the five values read back |
| EnvFile.SecretsFile.LoadBootstrap | packages/env-cli/src/env-file.ts:47-88 | loads exactly what LoadedExactly states |

## Left out

- RotateDeviceSession: takes the token already parsed (DeviceToken), and a change of the server's session key is modelled only as a key id that differs.
- DeviceCredential: clientKind, revokedReason, the deletion of refresh sessions, security events and the deletion of a passkey row are not modelled.
- DeviceRefresh: the stored access token and the sharing of one pending promise are not modelled, and other tabs do not act between the two attempts of one call (they do between any two moves of a run).
- BrowserRefresh: signing out, the legacy refresh token and other origins are not modelled; runs are followed up to the loss, after which a new sign-in starts at SignInIsInSync.
- InSyncPromptly: takes a request that its tab has given up not to be served later; where one is, InSyncUnderLock has the condition.
- MfaTickets: one clock that the steps read in order stands for the clocks of server and Redis, which the bound on guesses needs; the issue limit, mail delivery and minimum onsite assurance are not modelled.
- CountMfaAttempt: the hits on the user's and the ticket's counter are one step.
- VerifyTotpStep: HMAC-SHA-1 is a parameter that returns 20 bytes, and wiping the key buffer is not modelled.
- UploadAuthority: canonical paths, UUIDs and the other field formats of a delegation are one opaque field, and the handlers' checks after a consume are not part of this model.
- Begin: validation, GETDEL and the write of the reservation are one step with a clock for each, and so are the check and the GETDEL of a delegation.
- UploadClient: the sending side (`issue`) and the metadata of the operation beyond its validity are not modelled, and one clock serves for the two readings of a lifetime; the abort timer appears as the owner ending at any check.
- SiteRestore: mismatches are a set, without the order in which they are printed; table names that objects inherit are not treated specially.
- SiteBundle: a read of the preamble returns all the bytes there are, up to one MiB; symbolic links and directories count as occupied paths.
- TooManyTables: JSON text is only taken to be at least as long as the text and the number of its members.
- BeginPairingRegistration: the claim and the read of the user's epoch after it are one step; finishing checks the epoch again.
- DevicePairing: labels, options and existing passkeys of a registration, and the recovery purpose of candidates are not modelled.
- CredentialRateLimit: the expansion of IPv6 addresses is not modelled; a subject is any text of the form it produces.
- GoogleKeys: the text of Cache-Control and Age is given as numbers; fractional, infinite and malformed numbers are not modelled, and one stretch of code reads the clock once.
- EdgeKeys: the test-only reset is not modelled.
- EnvFile: reading and writing the file system beyond one file, and the check for missing required keys are not modelled; characters are Unicode scalar values.
- HTTP and WebSocket handlers, the React front end and the command line: dispatch and display.
- identity-verification, auth-code-store, composite-session-store, google-oidc-request, id-cache and the action policy table: patterns proved here in a harder form, or case tables.
- Cryptography, PostgreSQL, Redis, pg_dump, mail, fetch and JSON text: used through the contracts named above.
