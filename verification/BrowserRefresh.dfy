/**
 The browser side of rotation: frontend/src/lib/browser-refresh.ts and browser-token-store.ts against DeviceCredential,
 by way of the session route of server/src/http/device-handler.ts.

 Tabs of one browser share the device cookie and the kind of their session; each tab keeps its own rotation id in
 session storage from the first attempt until a reply has been stored, or a 401 has cleared it. Sending a request,
 serving it and delivering its reply are separate moves, in any order that a network allows; a request that its tab has
 given up may still be served.
 */
module BrowserRefresh {
  import opened Wrappers
  import opened DeviceRotation
  import opened DeviceCredential

  // ---------------------------------------------------------------- requests and replies

  /**
   What becomes of a request besides the rotation: it is turned away before it (rate limit, disabled); after it the
   access token is issued, or refused because the account is locked or has changed meanwhile, or the server fails.
   */
  datatype Aftermath = TurnedAway | Issued | SessionRefused | ServerFailed

  /** A coded 401 comes with a Set-Cookie that deletes the cookie; a plain one leaves it alone. */
  datatype Reply =
    | Success(token: Token)
    | CodedUnauthorized(code: ErrorCode)
    | PlainUnauthorized
    | Conflict
    | Failure

  function Decided(db: Tables, keyId: string, token: Token, rotationId: string, now: int): Decision {
    DecisionFor(db, keyId, token.deviceId, token.secret, rotationId, now)
  }

  function Outcome(db: Tables, keyId: string, token: Option<Token>, rotationId: string, now: int)
    : Result<Token, ErrorCode>
  {
    if token.None? then Err(CredentialMissing) else
    var decision := Decided(db, keyId, token.value, rotationId, now);
    if decision.Refuse? then Err(decision.code) else Ok(Token(token.value.deviceId, decision.secret))
  }

  function ReplyFor(outcome: Result<Token, ErrorCode>, aftermath: Aftermath): Reply {
    match outcome
    case Err(CredentialMissing) => PlainUnauthorized
    case Err(RotationConflict) => Conflict
    case Err(code) => CodedUnauthorized(code)
    case Ok(token) =>
      match aftermath
      case Issued => Success(token)
      case SessionRefused => PlainUnauthorized
      case _ => Failure
  }

  function ReplyTo(db: Tables, keyId: string, token: Option<Token>, rotationId: string, now: int,
      aftermath: Aftermath): Reply {
    if aftermath.TurnedAway? then Failure else ReplyFor(Outcome(db, keyId, token, rotationId, now), aftermath)
  }

  function DbAfter(db: Tables, keyId: string, token: Option<Token>, rotationId: string, now: int,
      aftermath: Aftermath): Tables {
    if aftermath.TurnedAway? || token.None? then db else Apply(db, keyId, Refresh(token.value, rotationId, now))
  }

  // ---------------------------------------------------------------- moves of one browser among other events

  /**
   `device`: the kind of the session; after any 401 no tab sends a request until a sign-in or a reply under way sets
   it.
   */
  datatype Browser = Browser(cookie: Option<Token>, rotationIds: map<string, string>, device: bool)

  /** A request, with the cookie and the rotation id it left with; `waiting` until its tab gives it up. */
  datatype Flight = Flight(tab: string, token: Option<Token>, rotationId: string, waiting: bool, reply: Option<Reply>)

  datatype World = World(db: Tables, browser: Browser, flights: map<nat, Flight>)

  datatype Move =
    | Send(flight: nat, tab: string, newId: string, retry: bool)
    | Serve(flight: nat, now: int, aftermath: Aftermath)
    | Deliver(flight: nat, body: bool)
    | Abandon(flight: nat)
    | Elsewhere(step: Step)

  function RotationIdOf(browser: Browser, tab: string, newId: string): string {
    if tab in browser.rotationIds then browser.rotationIds[tab] else newId
  }

  function Stored(browser: Browser, tab: string, newId: string): Browser {
    browser.(rotationIds := browser.rotationIds[tab := RotationIdOf(browser, tab, newId)])
  }

  /** Only the retry after a conflict does not look at the session kind again. */
  function Sent(world: World, flight: nat, tab: string, newId: string, retry: bool): World {
    if flight in world.flights || !(world.browser.device || retry) then world else
    var rotationId := RotationIdOf(world.browser, tab, newId);
    world.(browser := Stored(world.browser, tab, newId),
           flights := world.flights[flight := Flight(tab, world.browser.cookie, rotationId, true, None)])
  }

  function Served(world: World, keyId: string, flight: nat, now: int, aftermath: Aftermath): World {
    if flight !in world.flights || world.flights[flight].reply.Some? then world else
    var f := world.flights[flight];
    world.(db := DbAfter(world.db, keyId, f.token, f.rotationId, now, aftermath),
           flights := world.flights[flight :=
             f.(reply := Some(ReplyTo(world.db, keyId, f.token, f.rotationId, now, aftermath)))])
  }

  predicate Arrives(world: World, flight: nat) {
    flight in world.flights && world.flights[flight].waiting && world.flights[flight].reply.Some?
  }

  function CookieAfter(cookie: Option<Token>, reply: Reply): Option<Token> {
    match reply
    case Success(token) => Some(token)
    case CodedUnauthorized(_) => None
    case _ => cookie
  }

  /** The browser applies Set-Cookie, and the tab the rest; of a success it needs the body as well. */
  function BrowserAfter(browser: Browser, tab: string, reply: Reply, body: bool): Browser {
    var cookie := CookieAfter(browser.cookie, reply);
    if reply.Success? && body then Browser(cookie, browser.rotationIds - {tab}, true)
    else if reply.CodedUnauthorized? || reply.PlainUnauthorized? then
      Browser(cookie, browser.rotationIds - {tab}, false)
    else browser.(cookie := cookie)
  }

  function DeliveredTo(world: World, flight: nat, body: bool): World {
    if !Arrives(world, flight) then world else
    var f := world.flights[flight];
    world.(browser := BrowserAfter(world.browser, f.tab, f.reply.value, body), flights := world.flights - {flight})
  }

  function Next(world: World, keyId: string, move: Move): World {
    match move
    case Send(flight, tab, newId, retry) => Sent(world, flight, tab, newId, retry)
    case Serve(flight, now, aftermath) => Served(world, keyId, flight, now, aftermath)
    case Deliver(flight, body) => DeliveredTo(world, flight, body)
    case Abandon(flight) =>
      if flight !in world.flights then world
      else world.(flights := world.flights[flight := world.flights[flight].(waiting := false)])
    case Elsewhere(step) => world.(db := Apply(world.db, keyId, step))
  }

  function RunMoves(world: World, keyId: string, moves: seq<Move>): World
    decreases |moves|
  {
    if moves == [] then world else Next(RunMoves(world, keyId, moves[..|moves| - 1]), keyId, moves[|moves| - 1])
  }

  // ---------------------------------------------------------------- being in sync

  ghost predicate IsCurrent(db: Tables, id: string, secret: Secret)
    requires id in db.credentials
  {
    secret == db.credentials[id].currentHash.secret
  }

  ghost predicate IsPrevious(db: Tables, id: string, secret: Secret)
    requires id in db.credentials
  {
    db.credentials[id].previousHash.Some? && secret == db.credentials[id].previousHash.value.secret
  }

  /** The tab holds the rotation id of the latest rotation, so that its resend is answered with the current secret. */
  ghost predicate HoldsRotation(world: World, id: string, tab: string)
    requires id in world.db.credentials
  {
    && tab in world.browser.rotationIds
    && world.db.credentials[id].lastRotationId == Some(world.browser.rotationIds[tab])
  }

  /** Some tab other than the one that drops its id holds the rotation. */
  ghost predicate Held(world: World, id: string, dropped: Option<string>)
    requires id in world.db.credentials
  {
    exists tab :: HoldsRotation(world, id, tab) && Some(tab) != dropped
  }

  /**
   The cookie is the current secret of the device, or it is the one just before it and some tab still holds the rotation
   id that replaced it.
   */
  ghost predicate InSync(world: World, id: string) {
    && Valid(world.db) && id in world.db.credentials
    && world.browser.cookie.Some? && world.browser.cookie.value.deviceId == id
    && (|| IsCurrent(world.db, id, world.browser.cookie.value.secret)
        || (IsPrevious(world.db, id, world.browser.cookie.value.secret) && Held(world, id, None)))
  }

  /** Every request and reply of this browser is about this device, and rotation ids are non-empty. */
  ghost predicate OneDevice(world: World, id: string) {
    && (forall tab :: tab in world.browser.rotationIds ==> world.browser.rotationIds[tab] != "")
    && forall f :: f in world.flights ==>
         && world.flights[f].rotationId != ""
         && (world.flights[f].token.Some? ==> world.flights[f].token.value.deviceId == id)
         && (world.flights[f].reply.Some? && world.flights[f].reply.value.Success? ==>
               world.flights[f].reply.value.token.deviceId == id)
  }

  /** Nobody else holds this browser's cookie, and rotation ids are non-empty (they are UUIDs). */
  ghost predicate Fair(move: Move, id: string) {
    match move
    case Send(_, _, newId, _) => newId != ""
    case Elsewhere(step) => step.Refresh? ==> step.token.deviceId != id
    case _ => true
  }

  ghost predicate Rotates(world: World, keyId: string, flight: nat, now: int, aftermath: Aftermath) {
    && flight in world.flights && world.flights[flight].reply.None?
    && !aftermath.TurnedAway? && world.flights[flight].token.Some?
    && Decided(world.db, keyId, world.flights[flight].token.value, world.flights[flight].rotationId, now).Rotate?
  }

  /**
   The moves that take a browser out of sync: a rotation it does not know of, because its cookie was already behind or
   the tab has dropped the rotation id; a reply whose cookie is behind what the server has come to meanwhile, with
   nobody left to resend; a 401 that deletes the cookie; and a 401 that drops the last copy of the id that was needed.
   */
  ghost predicate Loses(world: World, keyId: string, id: string, move: Move)
    requires InSync(world, id)
  {
    match move
    case Serve(flight, now, aftermath) =>
      && Rotates(world, keyId, flight, now, aftermath)
      && !(&& IsCurrent(world.db, id, world.browser.cookie.value.secret)
           && exists tab :: Remembers(world.browser, tab, world.flights[flight].rotationId))
    case Deliver(flight, body) =>
      && Arrives(world, flight)
      && var tab := world.flights[flight].tab;
      (match world.flights[flight].reply.value
       case Success(token) =>
         && !IsCurrent(world.db, id, token.secret)
         && !(IsPrevious(world.db, id, token.secret) && Held(world, id, if body then Some(tab) else None))
       case CodedUnauthorized(_) => true
       case PlainUnauthorized =>
         !IsCurrent(world.db, id, world.browser.cookie.value.secret) && !Held(world, id, Some(tab))
       case _ => false)
    case _ => false
  }

  ghost predicate Remembers(browser: Browser, tab: string, rotationId: string) {
    tab in browser.rotationIds && browser.rotationIds[tab] == rotationId
  }

  // ---------------------------------------------------------------- one move

  /**
   A refresh that does not rotate leaves the secrets alone; one that does makes the current secret the previous one.
   */
  lemma RefreshEffect(db: Tables, keyId: string, token: Token, rotationId: string, now: int)
    requires Valid(db) && token.deviceId in db.credentials
    ensures
      var id, next := token.deviceId, Apply(db, keyId, Refresh(token, rotationId, now));
      && Valid(next) && id in next.credentials
      && (if Decided(db, keyId, token, rotationId, now).Rotate? then
            && token.secret == db.credentials[id].currentHash.secret
            && next.credentials[id].previousHash == Some(db.credentials[id].currentHash)
            && next.credentials[id].lastRotationId == Some(rotationId)
            && next.credentials[id].currentHash.secret == Derived(id, db.credentials[id].generation + 1, rotationId)
          else
            SameSecrets(db.credentials[id], next.credentials[id]))
  {
    StepKeepsValid(db, keyId, Refresh(token, rotationId, now));
    assert ValidRow(db, token.deviceId);
  }

  /**
   A rotation takes the cookie one generation back, and leaves as holders the tabs that know the id it was made with.
   */
  lemma RotationInSyncExactly(world: World, keyId: string, id: string, flight: nat, now: int, aftermath: Aftermath)
    requires InSync(world, id) && OneDevice(world, id) && Rotates(world, keyId, flight, now, aftermath)
    ensures
      InSync(Served(world, keyId, flight, now, aftermath), id)
      <==> (&& IsCurrent(world.db, id, world.browser.cookie.value.secret)
            && exists tab :: Remembers(world.browser, tab, world.flights[flight].rotationId))
  {
    var next, f := Served(world, keyId, flight, now, aftermath), world.flights[flight];
    RefreshEffect(world.db, keyId, f.token.value, f.rotationId, now);
    assert ValidRow(world.db, id);
    var secret := world.browser.cookie.value.secret;
    assert !IsCurrent(next.db, id, secret) && (IsPrevious(next.db, id, secret) <==> IsCurrent(world.db, id, secret));
    assert forall tab :: HoldsRotation(next, id, tab) <==> Remembers(world.browser, tab, f.rotationId);
  }

  lemma OtherServicesKeepInSync(world: World, keyId: string, id: string, flight: nat, now: int, aftermath: Aftermath)
    requires InSync(world, id) && OneDevice(world, id) && !Rotates(world, keyId, flight, now, aftermath)
    ensures InSync(Served(world, keyId, flight, now, aftermath), id)
    ensures SameSecrets(world.db.credentials[id], Served(world, keyId, flight, now, aftermath).db.credentials[id])
  {
    var next := Served(world, keyId, flight, now, aftermath);
    if next.db != world.db {
      var f := world.flights[flight];
      RefreshEffect(world.db, keyId, f.token.value, f.rotationId, now);
    }
    SameRowKeepsHolders(world, next, id);
  }

  lemma ServedForOneDevice(world: World, keyId: string, id: string, flight: nat, now: int, aftermath: Aftermath)
    requires OneDevice(world, id)
    ensures OneDevice(Served(world, keyId, flight, now, aftermath), id)
  {
  }

  lemma SameRowKeepsHolders(world: World, next: World, id: string)
    requires id in world.db.credentials && id in next.db.credentials
    requires SameSecrets(world.db.credentials[id], next.db.credentials[id]) && next.browser == world.browser
    ensures Held(next, id, None) <==> Held(world, id, None)
  {
    if tab :| HoldsRotation(world, id, tab) { assert HoldsRotation(next, id, tab); }
    if tab :| HoldsRotation(next, id, tab) { assert HoldsRotation(world, id, tab); }
  }

  lemma DeliverInSyncExactly(world: World, keyId: string, id: string, flight: nat, body: bool)
    requires InSync(world, id) && OneDevice(world, id)
    ensures InSync(DeliveredTo(world, flight, body), id) <==> !Loses(world, keyId, id, Deliver(flight, body))
    ensures OneDevice(DeliveredTo(world, flight, body), id)
  {
    var next := DeliveredTo(world, flight, body);
    if Arrives(world, flight) {
      DroppedId(world, next, id, world.flights[flight].tab);
    }
  }

  /** What is left of the holders when one tab may have dropped its id. */
  lemma DroppedId(world: World, next: World, id: string, tab: string)
    requires id in world.db.credentials && next.db == world.db
    ensures next.browser.rotationIds == world.browser.rotationIds - {tab} ==>
      (Held(next, id, None) <==> Held(world, id, Some(tab)))
    ensures next.browser.rotationIds == world.browser.rotationIds ==> (Held(next, id, None) <==> Held(world, id, None))
  {
    if next.browser.rotationIds == world.browser.rotationIds - {tab} {
      if t :| HoldsRotation(next, id, t) { assert HoldsRotation(world, id, t) && t != tab; }
      if t :| HoldsRotation(world, id, t) && t != tab { assert HoldsRotation(next, id, t); }
    }
    if next.browser.rotationIds == world.browser.rotationIds {
      if t :| HoldsRotation(next, id, t) { assert HoldsRotation(world, id, t); }
      if t :| HoldsRotation(world, id, t) { assert HoldsRotation(next, id, t); }
    }
  }

  lemma SendKeepsInSync(world: World, id: string, flight: nat, tab: string, newId: string, retry: bool)
    requires InSync(world, id) && OneDevice(world, id) && newId != ""
    ensures InSync(Sent(world, flight, tab, newId, retry), id) && OneDevice(Sent(world, flight, tab, newId, retry), id)
  {
    var next := Sent(world, flight, tab, newId, retry);
    if holder :| HoldsRotation(world, id, holder) { assert HoldsRotation(next, id, holder); }
  }

  lemma ElsewhereKeepsSecrets(db: Tables, keyId: string, id: string, step: Step)
    requires id in db.credentials && Fair(Elsewhere(step), id)
    ensures id in Apply(db, keyId, step).credentials
    ensures SameSecrets(db.credentials[id], Apply(db, keyId, step).credentials[id])
  {
    StepOnRow(db, keyId, step, id);
  }

  lemma ElsewhereKeepsInSync(world: World, keyId: string, id: string, step: Step)
    requires InSync(world, id) && Fair(Elsewhere(step), id)
    ensures InSync(world.(db := Apply(world.db, keyId, step)), id)
    ensures SameSecrets(world.db.credentials[id], Apply(world.db, keyId, step).credentials[id])
  {
    StepKeepsValid(world.db, keyId, step);
    ElsewhereKeepsSecrets(world.db, keyId, id, step);
    SameRowKeepsHolders(world, world.(db := Apply(world.db, keyId, step)), id);
  }

  /** A browser in sync stays so in a move exactly when the move is not one of those that lose it. */
  lemma NextInSyncExactly(world: World, keyId: string, id: string, move: Move)
    requires InSync(world, id) && OneDevice(world, id) && Fair(move, id)
    ensures InSync(Next(world, keyId, move), id) <==> !Loses(world, keyId, id, move)
    ensures OneDevice(Next(world, keyId, move), id)
  {
    match move
    case Send(flight, tab, newId, retry) => SendKeepsInSync(world, id, flight, tab, newId, retry);
    case Serve(flight, now, aftermath) =>
      ServedForOneDevice(world, keyId, id, flight, now, aftermath);
      if Rotates(world, keyId, flight, now, aftermath) {
        RotationInSyncExactly(world, keyId, id, flight, now, aftermath);
      } else {
        OtherServicesKeepInSync(world, keyId, id, flight, now, aftermath);
      }
    case Deliver(flight, body) => DeliverInSyncExactly(world, keyId, id, flight, body);
    case Abandon(flight) => DroppedId(world, Next(world, keyId, move), id, "");
    case Elsewhere(step) => ElsewhereKeepsInSync(world, keyId, id, step);
  }

  // ---------------------------------------------------------------- runs

  ghost predicate InSyncThroughout(world: World, keyId: string, id: string, moves: seq<Move>)
    decreases |moves|
  {
    && InSync(RunMoves(world, keyId, moves), id)
    && (moves != [] ==> InSyncThroughout(world, keyId, id, moves[..|moves| - 1]))
  }

  ghost predicate NeverLoses(world: World, keyId: string, id: string, moves: seq<Move>)
    decreases |moves|
  {
    moves != [] ==>
      && NeverLoses(world, keyId, id, moves[..|moves| - 1])
      && var before := RunMoves(world, keyId, moves[..|moves| - 1]);
         (InSync(before, id) ==> !Loses(before, keyId, id, moves[|moves| - 1]))
  }

  ghost predicate AllFair(moves: seq<Move>, id: string) {
    forall move :: move in moves ==> Fair(move, id)
  }

  /** In every run of any number of tabs: the browser stays in sync exactly until the first move that loses it. */
  lemma {:induction false} InSyncExactly(world: World, keyId: string, id: string, moves: seq<Move>)
    requires InSync(world, id) && OneDevice(world, id) && AllFair(moves, id)
    ensures InSyncThroughout(world, keyId, id, moves) <==> NeverLoses(world, keyId, id, moves)
    ensures InSyncThroughout(world, keyId, id, moves) ==> OneDevice(RunMoves(world, keyId, moves), id)
    decreases |moves|
  {
    if moves != [] {
      var init, last := moves[..|moves| - 1], moves[|moves| - 1];
      InSyncExactly(world, keyId, id, init);
      if InSyncThroughout(world, keyId, id, init) {
        NextInSyncExactly(RunMoves(world, keyId, init), keyId, id, last);
      }
    }
  }

  // ---------------------------------------------------------------- under the lock

  /** What the lock does: no request is sent while another one is waited for. */
  ghost predicate UnderLock(world: World, move: Move) {
    move.Send? ==> forall f :: f in world.flights ==> !world.flights[f].waiting
  }

  /** What the lock does not do, but a network may: a request that its tab has given up is not served any more. */
  ghost predicate Prompt(world: World, move: Move) {
    move.Serve? && move.flight in world.flights ==> world.flights[move.flight].waiting
  }

  ghost predicate NoNewerThan(secret: Secret, cookie: Option<Token>) {
    cookie.Some? ==> GenerationOf(secret) <= GenerationOf(cookie.value.secret)
  }

  /**
   What the lock keeps: one request at most is waited for; it left with the cookie of now, and its tab remembers its
   rotation id. No request carries a newer secret than the cookie, and no success that is waited for an older one.
   */
  ghost predicate Queued(world: World) {
    && (forall f, g :: f in world.flights && world.flights[f].waiting && g in world.flights && world.flights[g].waiting
          ==> f == g)
    && (forall f :: f in world.flights && world.flights[f].waiting ==>
          && world.flights[f].token == world.browser.cookie
          && Remembers(world.browser, world.flights[f].tab, world.flights[f].rotationId))
    && forall f :: f in world.flights && world.flights[f].token.Some? ==>
         && NoNewerThan(world.flights[f].token.value.secret, world.browser.cookie)
         && (world.flights[f].reply.Some? && world.flights[f].reply.value.Success? ==>
               NoNewerThan(world.flights[f].token.value.secret, Some(world.flights[f].reply.value.token)))
  }

  /** What a prompt network keeps besides: a success that is waited for carries the current secret. */
  ghost predicate AwaitsCurrent(world: World, id: string) {
    && id in world.db.credentials
    && forall f :: f in world.flights && world.flights[f].waiting && world.flights[f].reply.Some?
                   && world.flights[f].reply.value.Success? ==>
         IsCurrent(world.db, id, world.flights[f].reply.value.token.secret)
  }

  /** A delivered 401 that deletes the cookie, or that drops the id which alone could still bring the current secret. */
  ghost predicate LosingReply(world: World, id: string, move: Move)
    requires InSync(world, id)
  {
    && move.Deliver? && Arrives(world, move.flight)
    && var reply := world.flights[move.flight].reply.value;
       || reply.CodedUnauthorized?
       || (&& reply.PlainUnauthorized?
           && !IsCurrent(world.db, id, world.browser.cookie.value.secret)
           && !Held(world, id, Some(world.flights[move.flight].tab)))
  }

  /** A request that was given up is served after all, and rotates with an id that no tab remembers any more. */
  ghost predicate LateRotation(world: World, keyId: string, move: Move) {
    && move.Serve? && Rotates(world, keyId, move.flight, move.now, move.aftermath)
    && !world.flights[move.flight].waiting
    && !exists tab :: Remembers(world.browser, tab, world.flights[move.flight].rotationId)
  }

  /** A success arrives after the server has rotated on, and no other tab can resend for the newest secret. */
  ghost predicate OvertakenSuccess(world: World, id: string, move: Move)
    requires InSync(world, id)
  {
    && move.Deliver? && Arrives(world, move.flight)
    && var f := world.flights[move.flight];
       && f.reply.value.Success? && !IsCurrent(world.db, id, f.reply.value.token.secret)
       && !(IsPrevious(world.db, id, f.reply.value.token.secret)
            && Held(world, id, if move.body then Some(f.tab) else None))
  }

  ghost predicate LosesUnderLock(world: World, keyId: string, id: string, move: Move)
    requires InSync(world, id)
  {
    LosingReply(world, id, move) || LateRotation(world, keyId, move) || OvertakenSuccess(world, id, move)
  }

  /** A success carries the secret that is current once the request has been served. */
  lemma SuccessIsCurrent(db: Tables, keyId: string, token: Option<Token>, rotationId: string, now: int,
      aftermath: Aftermath)
    requires Valid(db) && ReplyTo(db, keyId, token, rotationId, now, aftermath).Success?
    ensures
      var reply, after := ReplyTo(db, keyId, token, rotationId, now, aftermath),
                          DbAfter(db, keyId, token, rotationId, now, aftermath);
      && token.Some? && reply.token.deviceId == token.value.deviceId
      && token.value.deviceId in after.credentials && IsCurrent(after, token.value.deviceId, reply.token.secret)
  {
    assert ValidRow(db, token.value.deviceId);
  }

  /** A success carries no older secret than the one that was presented. */
  lemma SuccessIsNoOlder(db: Tables, keyId: string, token: Option<Token>, rotationId: string, now: int,
      aftermath: Aftermath)
    requires Valid(db) && ReplyTo(db, keyId, token, rotationId, now, aftermath).Success?
    ensures token.Some?
    ensures NoNewerThan(token.value.secret, Some(ReplyTo(db, keyId, token, rotationId, now, aftermath).token))
  {
    assert ValidRow(db, token.value.deviceId);
  }

  lemma ServeKeepsQueued(world: World, keyId: string, flight: nat, now: int, aftermath: Aftermath)
    requires Valid(world.db) && Queued(world)
    ensures Queued(Served(world, keyId, flight, now, aftermath))
  {
    if flight in world.flights && world.flights[flight].reply.None? {
      var f := world.flights[flight];
      if ReplyTo(world.db, keyId, f.token, f.rotationId, now, aftermath).Success? {
        SuccessIsNoOlder(world.db, keyId, f.token, f.rotationId, now, aftermath);
      }
    }
  }

  lemma SendKeepsQueued(world: World, flight: nat, tab: string, newId: string, retry: bool)
    requires Queued(world) && UnderLock(world, Send(flight, tab, newId, retry))
    ensures Queued(Sent(world, flight, tab, newId, retry))
  {
  }

  lemma DeliverKeepsQueued(world: World, flight: nat, body: bool)
    requires Queued(world) && world.browser.cookie.Some?
    ensures Queued(DeliveredTo(world, flight, body))
  {
  }

  lemma NextKeepsQueued(world: World, keyId: string, move: Move)
    requires Valid(world.db) && world.browser.cookie.Some? && Queued(world) && UnderLock(world, move)
    ensures Queued(Next(world, keyId, move))
  {
    match move
    case Send(flight, tab, newId, retry) => SendKeepsQueued(world, flight, tab, newId, retry);
    case Serve(flight, now, aftermath) => ServeKeepsQueued(world, keyId, flight, now, aftermath);
    case Deliver(flight, body) => DeliverKeepsQueued(world, flight, body);
    case _ =>
  }

  lemma ServeKeepsAwaited(world: World, keyId: string, id: string, flight: nat, now: int, aftermath: Aftermath)
    requires InSync(world, id) && Queued(world) && AwaitsCurrent(world, id)
    requires Prompt(world, Serve(flight, now, aftermath))
    ensures AwaitsCurrent(Served(world, keyId, flight, now, aftermath), id)
  {
    if flight in world.flights && world.flights[flight].reply.None? {
      var f := world.flights[flight];
      if ReplyTo(world.db, keyId, f.token, f.rotationId, now, aftermath).Success? {
        SuccessIsCurrent(world.db, keyId, f.token, f.rotationId, now, aftermath);
      }
    }
  }

  lemma NextKeepsAwaited(world: World, keyId: string, id: string, move: Move)
    requires InSync(world, id) && Queued(world) && AwaitsCurrent(world, id) && Fair(move, id) && Prompt(world, move)
    ensures AwaitsCurrent(Next(world, keyId, move), id)
  {
    match move
    case Serve(flight, now, aftermath) => ServeKeepsAwaited(world, keyId, id, flight, now, aftermath);
    case Elsewhere(step) => ElsewhereKeepsInSync(world, keyId, id, step);
    case _ =>
  }

  lemma RotationNeedsCurrent(world: World, keyId: string, id: string, flight: nat, now: int, aftermath: Aftermath)
    requires InSync(world, id) && OneDevice(world, id) && Rotates(world, keyId, flight, now, aftermath)
    ensures world.flights[flight].token.value.deviceId == id
    ensures IsCurrent(world.db, id, world.flights[flight].token.value.secret)
  {
    var f := world.flights[flight];
    RefreshEffect(world.db, keyId, f.token.value, f.rotationId, now);
  }

  /** A request that carries the current secret shows that the cookie is current: it is no older, and in sync. */
  lemma CookieIsCurrent(world: World, id: string, flight: nat)
    requires InSync(world, id) && Queued(world)
    requires flight in world.flights && world.flights[flight].token.Some?
    requires IsCurrent(world.db, id, world.flights[flight].token.value.secret)
    ensures IsCurrent(world.db, id, world.browser.cookie.value.secret)
  {
    assert ValidRow(world.db, id);
    assert NoNewerThan(world.flights[flight].token.value.secret, world.browser.cookie);
  }

  /** Under the lock a browser is lost by a losing 401, by a late rotation, and by a success that one has overtaken. */
  lemma LosesUnderLockExactly(world: World, keyId: string, id: string, move: Move)
    requires InSync(world, id) && OneDevice(world, id) && Queued(world)
    ensures Loses(world, keyId, id, move) <==> LosesUnderLock(world, keyId, id, move)
  {
    if move.Serve? && Rotates(world, keyId, move.flight, move.now, move.aftermath) {
      RotationNeedsCurrent(world, keyId, id, move.flight, move.now, move.aftermath);
      CookieIsCurrent(world, id, move.flight);
      if world.flights[move.flight].waiting {
        assert Remembers(world.browser, world.flights[move.flight].tab, world.flights[move.flight].rotationId);
      }
    }
  }

  /** And where nothing given up is served, by a losing 401 alone. */
  lemma LosesPromptlyExactly(world: World, keyId: string, id: string, move: Move)
    requires InSync(world, id) && OneDevice(world, id) && Queued(world) && AwaitsCurrent(world, id)
    requires Prompt(world, move)
    ensures Loses(world, keyId, id, move) <==> LosingReply(world, id, move)
  {
    LosesUnderLockExactly(world, keyId, id, move);
  }

  ghost predicate AllUnderLock(world: World, keyId: string, moves: seq<Move>)
    decreases |moves|
  {
    moves != [] ==>
      && AllUnderLock(world, keyId, moves[..|moves| - 1])
      && UnderLock(RunMoves(world, keyId, moves[..|moves| - 1]), moves[|moves| - 1])
  }

  ghost predicate AllPrompt(world: World, keyId: string, moves: seq<Move>)
    decreases |moves|
  {
    moves != [] ==>
      && AllPrompt(world, keyId, moves[..|moves| - 1])
      && Prompt(RunMoves(world, keyId, moves[..|moves| - 1]), moves[|moves| - 1])
  }

  ghost predicate NeverLosesUnderLock(world: World, keyId: string, id: string, moves: seq<Move>)
    decreases |moves|
  {
    moves != [] ==>
      && NeverLosesUnderLock(world, keyId, id, moves[..|moves| - 1])
      && var before := RunMoves(world, keyId, moves[..|moves| - 1]);
         (InSync(before, id) ==> !LosesUnderLock(before, keyId, id, moves[|moves| - 1]))
  }

  ghost predicate NoLosingReply(world: World, keyId: string, id: string, moves: seq<Move>)
    decreases |moves|
  {
    moves != [] ==>
      && NoLosingReply(world, keyId, id, moves[..|moves| - 1])
      && var before := RunMoves(world, keyId, moves[..|moves| - 1]);
         (InSync(before, id) ==> !LosingReply(before, id, moves[|moves| - 1]))
  }

  /** In every run under the lock, whatever is lost and whoever gives up: in sync exactly until one of the three. */
  lemma {:induction false} InSyncUnderLock(world: World, keyId: string, id: string, moves: seq<Move>)
    requires InSync(world, id) && OneDevice(world, id) && Queued(world)
    requires AllFair(moves, id) && AllUnderLock(world, keyId, moves)
    ensures InSyncThroughout(world, keyId, id, moves) <==> NeverLosesUnderLock(world, keyId, id, moves)
    ensures InSyncThroughout(world, keyId, id, moves) ==>
              OneDevice(RunMoves(world, keyId, moves), id) && Queued(RunMoves(world, keyId, moves))
    decreases |moves|
  {
    if moves != [] {
      var init, last := moves[..|moves| - 1], moves[|moves| - 1];
      InSyncUnderLock(world, keyId, id, init);
      if InSyncThroughout(world, keyId, id, init) {
        NextInSyncExactly(RunMoves(world, keyId, init), keyId, id, last);
        LosesUnderLockExactly(RunMoves(world, keyId, init), keyId, id, last);
        NextKeepsQueued(RunMoves(world, keyId, init), keyId, last);
      }
    }
  }

  /** And in every such run in which nothing given up is served: exactly until a losing 401. */
  lemma {:induction false} InSyncPromptly(world: World, keyId: string, id: string, moves: seq<Move>)
    requires InSync(world, id) && OneDevice(world, id) && Queued(world) && AwaitsCurrent(world, id)
    requires AllFair(moves, id) && AllUnderLock(world, keyId, moves) && AllPrompt(world, keyId, moves)
    ensures InSyncThroughout(world, keyId, id, moves) <==> NoLosingReply(world, keyId, id, moves)
    ensures InSyncThroughout(world, keyId, id, moves) ==> AwaitsCurrent(RunMoves(world, keyId, moves), id)
    decreases |moves|
  {
    if moves != [] {
      var init, last := moves[..|moves| - 1], moves[|moves| - 1];
      InSyncPromptly(world, keyId, id, init);
      InSyncUnderLock(world, keyId, id, init);
      if InSyncThroughout(world, keyId, id, init) {
        NextInSyncExactly(RunMoves(world, keyId, init), keyId, id, last);
        LosesPromptlyExactly(RunMoves(world, keyId, init), keyId, id, last);
        NextKeepsAwaited(RunMoves(world, keyId, init), keyId, id, last);
      }
    }
  }

  /** A waiting request whose reply is delivered as soon as it is served. */
  lemma AnsweredAtOnce(world: World, keyId: string, flight: nat, now: int, aftermath: Aftermath, body: bool)
    requires flight in world.flights && world.flights[flight].waiting && world.flights[flight].reply.None?
    ensures
      var f := world.flights[flight];
      var reply := ReplyTo(world.db, keyId, f.token, f.rotationId, now, aftermath);
      DeliveredTo(Served(world, keyId, flight, now, aftermath), flight, body)
      == World(DbAfter(world.db, keyId, f.token, f.rotationId, now, aftermath),
               BrowserAfter(world.browser, f.tab, reply, body), world.flights - {flight})
  {
    assert Served(world, keyId, flight, now, aftermath).flights - {flight} == world.flights - {flight};
  }

  /** A request served and answered before anything else happens. */
  lemma PromptReply(world: World, keyId: string, flight: nat, tab: string, newId: string, retry: bool, now: int,
      aftermath: Aftermath, body: bool)
    requires flight !in world.flights && (world.browser.device || retry)
    ensures
      var rotationId := RotationIdOf(world.browser, tab, newId);
      var reply := ReplyTo(world.db, keyId, world.browser.cookie, rotationId, now, aftermath);
      DeliveredTo(Served(Sent(world, flight, tab, newId, retry), keyId, flight, now, aftermath), flight, body)
      == World(DbAfter(world.db, keyId, world.browser.cookie, rotationId, now, aftermath),
               BrowserAfter(Stored(world.browser, tab, newId), tab, reply, body), world.flights)
  {
    var sent := Sent(world, flight, tab, newId, retry);
    AnsweredAtOnce(sent, keyId, flight, now, aftermath, body);
    assert sent.flights - {flight} == world.flights;
  }

  // ---------------------------------------------------------------- what a browser in sync is answered

  /** What the reply does to a browser that has just stored its rotation id; `secret` is the current one afterwards. */
  ghost function Reaction(browser: Browser, tab: string, refusal: Option<ErrorCode>, secret: Secret,
      aftermath: Aftermath, body: bool): Browser {
    var ids := browser.rotationIds - {tab};
    if aftermath.TurnedAway? then browser
    else if browser.cookie.None? then Browser(None, ids, false)
    else if refusal == Some(RotationConflict) then browser
    else if refusal.Some? then Browser(None, ids, false)
    else
      var renewed := Some(Token(browser.cookie.value.deviceId, secret));
      match aftermath
      case Issued => if body then Browser(renewed, ids, true) else Browser(renewed, browser.rotationIds, browser.device)
      case SessionRefused => Browser(browser.cookie, ids, false)
      case _ => browser
  }

  ghost function RefusalOf(db: Tables, keyId: string, cookie: Option<Token>, rotationId: string, now: int)
    : Option<ErrorCode>
  {
    if cookie.None? then Some(CredentialMissing) else Refusal(db, keyId, cookie.value, rotationId, now)
  }

  ghost function CurrentSecret(db: Tables, cookie: Option<Token>): Secret {
    if cookie.Some? && cookie.value.deviceId in db.credentials
    then db.credentials[cookie.value.deviceId].currentHash.secret else Random(0)
  }

  /** The route's reply to a request that the refresh refuses for that reason, or not, with the secret current then. */
  ghost function Expected(cookie: Option<Token>, refusal: Option<ErrorCode>, secret: Secret,
      aftermath: Aftermath): Reply {
    if aftermath.TurnedAway? then Failure
    else if cookie.None? then PlainUnauthorized
    else if refusal == Some(RotationConflict) then Conflict
    else if refusal.Some? then CodedUnauthorized(refusal.value)
    else if aftermath.Issued? then Success(Token(cookie.value.deviceId, secret))
    else if aftermath.SessionRefused? then PlainUnauthorized
    else Failure
  }

  lemma ReplyExactly(db: Tables, keyId: string, cookie: Option<Token>, rotationId: string, now: int,
      aftermath: Aftermath)
    requires Valid(db)
    ensures
      ReplyTo(db, keyId, cookie, rotationId, now, aftermath)
      == Expected(cookie, RefusalOf(db, keyId, cookie, rotationId, now),
                  CurrentSecret(DbAfter(db, keyId, cookie, rotationId, now, aftermath), cookie), aftermath)
  {
    if cookie.Some? {
      RefreshExactly(db, keyId, cookie.value, rotationId, now);
      if cookie.value.deviceId in db.credentials { assert ValidRow(db, cookie.value.deviceId); }
    }
  }

  lemma ReactionExactly(browser: Browser, tab: string, refusal: Option<ErrorCode>, secret: Secret, aftermath: Aftermath,
      body: bool)
    ensures BrowserAfter(browser, tab, Expected(browser.cookie, refusal, secret, aftermath), body)
            == Reaction(browser, tab, refusal, secret, aftermath, body)
  {
  }

  /**
   A request that is answered before anything else happens, for every row and every aftermath: only a refusal as
   unauthorized deletes the cookie, and a conflict, like a request that is turned away or fails, leaves the browser with
   the rotation id it has just stored.
   */
  lemma ExchangeExactly(world: World, keyId: string, flight: nat, tab: string, newId: string, retry: bool, now: int,
      aftermath: Aftermath, body: bool)
    requires Valid(world.db) && flight !in world.flights && (world.browser.device || retry)
    ensures
      var cookie, ids := world.browser.cookie, world.browser.rotationIds;
      var rotationId := if tab in ids then ids[tab] else newId;
      var served := Served(Sent(world, flight, tab, newId, retry), keyId, flight, now, aftermath);
      var after := DeliveredTo(served, flight, body);
      && after.flights == world.flights
      && (aftermath.TurnedAway? || cookie.None? ==> after.db == world.db)
      && after.browser
         == Reaction(Browser(cookie, ids[tab := rotationId], world.browser.device), tab,
                     RefusalOf(world.db, keyId, cookie, rotationId, now), CurrentSecret(after.db, cookie), aftermath,
                     body)
  {
    PromptReply(world, keyId, flight, tab, newId, retry, now, aftermath, body);
    var cookie, rotationId := world.browser.cookie, RotationIdOf(world.browser, tab, newId);
    ReplyExactly(world.db, keyId, cookie, rotationId, now, aftermath);
    ReactionExactly(Stored(world.browser, tab, newId), tab, RefusalOf(world.db, keyId, cookie, rotationId, now),
                    CurrentSecret(DbAfter(world.db, keyId, cookie, rotationId, now, aftermath), cookie), aftermath,
                    body);
  }

  /** A request that is served before anything else happens: its tab remembers the rotation id it may rotate with. */
  lemma PromptServiceKeepsInSync(world: World, keyId: string, id: string, flight: nat, tab: string, newId: string,
      retry: bool, now: int, aftermath: Aftermath)
    requires InSync(world, id) && OneDevice(world, id) && newId != ""
    requires flight !in world.flights && (world.browser.device || retry)
    ensures InSync(Served(Sent(world, flight, tab, newId, retry), keyId, flight, now, aftermath), id)
    ensures OneDevice(Served(Sent(world, flight, tab, newId, retry), keyId, flight, now, aftermath), id)
  {
    var sent := Sent(world, flight, tab, newId, retry);
    SendKeepsInSync(world, id, flight, tab, newId, retry);
    ServedForOneDevice(sent, keyId, id, flight, now, aftermath);
    if Rotates(sent, keyId, flight, now, aftermath) {
      RotationInSyncExactly(sent, keyId, id, flight, now, aftermath);
      RotationNeedsCurrent(sent, keyId, id, flight, now, aftermath);
      assert Remembers(sent.browser, tab, sent.flights[flight].rotationId);
    } else {
      OtherServicesKeepInSync(sent, keyId, id, flight, now, aftermath);
    }
  }

  /** A tab sends while the browser is marked as a device, or to retry: the cookie of now and the id it has stored. */
  lemma SentExactly(world: World, flight: nat, tab: string, newId: string, retry: bool)
    requires flight !in world.flights
    ensures
      var sent := Sent(world, flight, tab, newId, retry);
      if !world.browser.device && !retry then sent == world else
        && flight in sent.flights && sent.flights == world.flights[flight := sent.flights[flight]]
        && sent.db == world.db && sent.browser.cookie == world.browser.cookie
        && sent.browser.device == world.browser.device
        && tab in sent.browser.rotationIds && sent.flights[flight].rotationId == sent.browser.rotationIds[tab]
        && sent.browser.rotationIds
           == (if tab in world.browser.rotationIds then world.browser.rotationIds
               else world.browser.rotationIds[tab := newId])
        && sent.flights[flight].tab == tab && sent.flights[flight].token == world.browser.cookie
        && sent.flights[flight].waiting && sent.flights[flight].reply.None?
  {
  }

  lemma FirstReply(world: World, keyId: string, flight: nat, tab: string, newId: string, retry: bool, now: int,
      aftermath: Aftermath)
    requires flight !in world.flights && (world.browser.device || retry)
    ensures
      var served := Served(Sent(world, flight, tab, newId, retry), keyId, flight, now, aftermath);
      var rotationId := RotationIdOf(world.browser, tab, newId);
      && Arrives(served, flight)
      && served.flights[flight].reply.value
         == ReplyTo(world.db, keyId, world.browser.cookie, rotationId, now, aftermath)
  {
  }

  lemma FailureLosesExactly(served: World, keyId: string, id: string, flight: nat, body: bool)
    requires InSync(served, id) && Arrives(served, flight)
    requires served.flights[flight].reply.value in {Failure, Conflict}
             || served.flights[flight].reply.value.CodedUnauthorized?
    ensures Loses(served, keyId, id, Deliver(flight, body)) <==> served.flights[flight].reply.value.CodedUnauthorized?
  {
  }

  /** A request that is turned away, or fails after a refresh that was not refused, leaves the browser in sync. */
  lemma FailuresKeepInSync(world: World, keyId: string, id: string, flight: nat, tab: string, newId: string,
      retry: bool, now: int, aftermath: Aftermath, body: bool)
    requires InSync(world, id) && OneDevice(world, id) && newId != ""
    requires flight !in world.flights && (world.browser.device || retry)
    requires aftermath.TurnedAway? || aftermath.ServerFailed?
    ensures
      var refusal := Refusal(world.db, keyId, world.browser.cookie.value, RotationIdOf(world.browser, tab, newId), now);
      var served := Served(Sent(world, flight, tab, newId, retry), keyId, flight, now, aftermath);
      var after := DeliveredTo(served, flight, body);
      InSync(after, id) <==> aftermath.TurnedAway? || refusal.None? || refusal == Some(RotationConflict)
  {
    var served := Served(Sent(world, flight, tab, newId, retry), keyId, flight, now, aftermath);
    PromptServiceKeepsInSync(world, keyId, id, flight, tab, newId, retry, now, aftermath);
    ReplyExactly(world.db, keyId, world.browser.cookie, RotationIdOf(world.browser, tab, newId), now, aftermath);
    FirstReply(world, keyId, flight, tab, newId, retry, now, aftermath);
    DeliverInSyncExactly(served, keyId, id, flight, body);
    FailureLosesExactly(served, keyId, id, flight, body);
  }

  /**
   A request with the cookie of now, served now, whatever becomes of it afterwards. Only a dead or expired credential,
   or missing every reply until the grace window has closed, sends a browser in sync to its passkey; a conflict means
   that another tab holds the id that resolves it; and every success brings the current secret.
   */
  lemma AnswersInSync(world: World, keyId: string, id: string, tab: string, newId: string, now: int,
      aftermath: Aftermath)
    requires InSync(world, id) && OneDevice(world, id) && newId != ""
    ensures
      var rotationId := RotationIdOf(world.browser, tab, newId);
      var row := world.db.credentials[id];
      var current := world.browser.cookie.value.secret == row.currentHash.secret;
      var open := Stands(world.db, keyId, row) && row.revokedAt.None? && now < row.expiresAt;
      var inGrace := row.lastRotatedAt.Some? && now < row.lastRotatedAt.value + 30_000;
      var reply := ReplyTo(world.db, keyId, world.browser.cookie, rotationId, now, aftermath);
      var after := DbAfter(world.db, keyId, world.browser.cookie, rotationId, now, aftermath);
      && (reply.CodedUnauthorized? <==> !aftermath.TurnedAway? && (!open || (!current && !inGrace)))
      && (open && reply.CodedUnauthorized? ==> reply.code == PasskeyRequired)
      && (reply.Conflict? <==>
            !aftermath.TurnedAway? && open && !current && inGrace && row.lastRotationId != Some(rotationId))
      && (reply.Conflict? ==> exists other :: other != tab && HoldsRotation(world, id, other))
      && (!reply.CodedUnauthorized? && !reply.Conflict? ==>
            && (reply.Success? <==> aftermath.Issued?) && (reply.PlainUnauthorized? <==> aftermath.SessionRefused?))
      && (reply.Success? ==>
            && id in after.credentials && reply.token.deviceId == id && IsCurrent(after, id, reply.token.secret))
  {
    assert ValidRow(world.db, id);
    var rotationId := RotationIdOf(world.browser, tab, newId);
    var reply := ReplyTo(world.db, keyId, world.browser.cookie, rotationId, now, aftermath);
    ReplyExactly(world.db, keyId, world.browser.cookie, rotationId, now, aftermath);
    if reply.Success? {
      SuccessIsCurrent(world.db, keyId, world.browser.cookie, rotationId, now, aftermath);
    }
    if reply.Conflict? {
      var holder :| HoldsRotation(world, id, holder);
    }
  }

  /** So it is after every run that has not lost the browser. */
  lemma OnlyMissedRepliesLoseTheSession(world: World, keyId: string, id: string, moves: seq<Move>, tab: string,
      newId: string, now: int)
    requires InSync(world, id) && OneDevice(world, id) && AllFair(moves, id) && newId != ""
    requires NeverLoses(world, keyId, id, moves)
    ensures
      var last := RunMoves(world, keyId, moves);
      && InSync(last, id)
      && var row, cookie := last.db.credentials[id], last.browser.cookie;
         var reply := ReplyTo(last.db, keyId, cookie, RotationIdOf(last.browser, tab, newId), now, Issued);
         (Usable(last.db, keyId, id) && now < row.expiresAt ==>
           && (reply == CodedUnauthorized(PasskeyRequired)
               <==> (&& !IsCurrent(last.db, id, cookie.value.secret)
                     && !(row.lastRotatedAt.Some? && now < row.lastRotatedAt.value + 30_000)))
           && (reply == Conflict ==> exists other :: other != tab && HoldsRotation(last, id, other))
           && (reply == CodedUnauthorized(PasskeyRequired) || reply == Conflict || reply.Success?))
  {
    InSyncExactly(world, keyId, id, moves);
    AnswersInSync(RunMoves(world, keyId, moves), keyId, id, tab, newId, now, Issued);
  }

  /**
   Once the tab that holds the rotation id gets its reply, every other tab's retry within the grace window is kept.
   */
  lemma OneReplySettlesAllTabs(world: World, keyId: string, id: string, flight: nat, holder: string,
      holderNewId: string,
      now: int, other: string, newId: string, later: int)
    requires InSync(world, id) && OneDevice(world, id) && world.browser.device && flight !in world.flights
    requires !IsCurrent(world.db, id, world.browser.cookie.value.secret) && HoldsRotation(world, id, holder)
    requires Usable(world.db, keyId, id)
    requires PreviousValid(world.db.credentials[id], now) && now < world.db.credentials[id].expiresAt
    requires PreviousValid(world.db.credentials[id], later) && later < world.db.credentials[id].expiresAt
    ensures
      var sent := Sent(world, flight, holder, holderNewId, false);
      var settled := DeliveredTo(Served(sent, keyId, flight, now, Issued), flight, true);
      && InSync(settled, id) && IsCurrent(settled.db, id, settled.browser.cookie.value.secret)
      && holder !in settled.browser.rotationIds
      && ReplyTo(settled.db, keyId, settled.browser.cookie, RotationIdOf(settled.browser, other, newId), later, Issued)
         == Success(settled.browser.cookie.value)
  {
    PromptReply(world, keyId, flight, holder, holderNewId, false, now, Issued, true);
    StepKeepsValid(world.db, keyId, Refresh(world.browser.cookie.value, world.browser.rotationIds[holder], now));
    assert ValidRow(world.db, id);
  }

  /** Signing in with a passkey is where it starts. */
  lemma SignInIsInSync(db: Tables, keyId: string, issue: Step, rotationIds: map<string, string>)
    requires Valid(db) && issue.Issue?
    requires MayIssue(db, issue.deviceId, issue.userId, issue.passkeyId, issue.evidence, issue.epoch)
    requires forall tab :: tab in rotationIds ==> rotationIds[tab] != ""
    ensures
      var cookie := Token(issue.deviceId, Random(issue.nonce));
      var world := World(Apply(db, keyId, issue), Browser(Some(cookie), rotationIds, true), map[]);
      && InSync(world, issue.deviceId) && OneDevice(world, issue.deviceId)
      && Queued(world) && AwaitsCurrent(world, issue.deviceId)
      && Usable(world.db, keyId, issue.deviceId)
  {
    StepKeepsValid(db, keyId, issue);
  }

  // ---------------------------------------------------------------- runs that lose a usable credential

  /** A browser with a usable credential last rotated at `rotatedAt`, and nothing under way. */
  ghost predicate Settled(world: World, keyId: string, id: string, rotatedAt: int) {
    && InSync(world, id) && IsCurrent(world.db, id, world.browser.cookie.value.secret)
    && world.browser.rotationIds == map[] && world.browser.device && world.flights == map[]
    && Usable(world.db, keyId, id)
    && world.db.credentials[id].lastRotatedAt == Some(rotatedAt)
    && rotatedAt + 2 * ROTATION_GRACE_MS < world.db.credentials[id].expiresAt
  }

  /** The credential is usable, but the cookie is behind and no tab holds a rotation id: any other id is refused. */
  ghost predicate Stranded(world: World, keyId: string, id: string, rotatedAt: int) {
    && Usable(world.db, keyId, id) && !InSync(world, id)
    && forall newId, now ::
         (&& newId != "" && world.db.credentials[id].lastRotationId != Some(newId)
          && now < world.db.credentials[id].expiresAt)
         ==>
           ReplyTo(world.db, keyId, world.browser.cookie, newId, now, Issued)
           == (if now < rotatedAt + ROTATION_GRACE_MS then Conflict else CodedUnauthorized(PasskeyRequired))
  }

  /** Behind by one rotation made at `rotatedAt`, with every id dropped. */
  lemma BehindIsStranded(world: World, keyId: string, id: string, rotatedAt: int)
    requires Valid(world.db) && Usable(world.db, keyId, id)
    requires world.browser.cookie.Some? && world.browser.cookie.value.deviceId == id
    requires IsPrevious(world.db, id, world.browser.cookie.value.secret)
    requires world.db.credentials[id].lastRotatedAt == Some(rotatedAt) && world.browser.rotationIds == map[]
    ensures Stranded(world, keyId, id, rotatedAt)
  {
    assert ValidRow(world.db, id);
  }

  lemma TwoMoves(world: World, keyId: string, first: Move, second: Move)
    ensures RunMoves(world, keyId, [first, second]) == Next(Next(world, keyId, first), keyId, second)
    ensures AllUnderLock(world, keyId, [first, second])
            <==> UnderLock(world, first) && UnderLock(Next(world, keyId, first), second)
    ensures AllPrompt(world, keyId, [first, second])
            <==> Prompt(world, first) && Prompt(Next(world, keyId, first), second)
  {
    assert [first, second][..1] == [first] && [first][..0] == [];
    assert RunMoves(world, keyId, [first]) == Next(world, keyId, first);
    assert AllUnderLock(world, keyId, [first]) <==> UnderLock(world, first);
    assert AllPrompt(world, keyId, [first]) <==> Prompt(world, first);
  }

  lemma ThreeMoves(world: World, keyId: string, first: Move, second: Move, third: Move)
    ensures RunMoves(world, keyId, [first, second, third])
            == Next(Next(Next(world, keyId, first), keyId, second), keyId, third)
    ensures AllUnderLock(world, keyId, [first, second, third])
            <==> (&& UnderLock(world, first) && UnderLock(Next(world, keyId, first), second)
                  && UnderLock(Next(Next(world, keyId, first), keyId, second), third))
    ensures AllPrompt(world, keyId, [first, second, third])
            <==> (&& Prompt(world, first) && Prompt(Next(world, keyId, first), second)
                  && Prompt(Next(Next(world, keyId, first), keyId, second), third))
  {
    TwoMoves(world, keyId, first, second);
    assert [first, second, third][..2] == [first, second];
  }

  lemma {:induction false} RunsInTurn(world: World, keyId: string, moves: seq<Move>, more: seq<Move>)
    ensures RunMoves(world, keyId, moves + more) == RunMoves(RunMoves(world, keyId, moves), keyId, more)
    ensures AllUnderLock(world, keyId, moves + more)
            <==> AllUnderLock(world, keyId, moves) && AllUnderLock(RunMoves(world, keyId, moves), keyId, more)
    ensures AllPrompt(world, keyId, moves + more)
            <==> AllPrompt(world, keyId, moves) && AllPrompt(RunMoves(world, keyId, moves), keyId, more)
    decreases |more|
  {
    if more == [] {
      assert moves + more == moves;
    } else {
      RunsInTurn(world, keyId, moves, more[..|more| - 1]);
      assert (moves + more)[..|moves + more| - 1] == moves + more[..|more| - 1];
    }
  }

  /** The tables after a rotation with the current secret, once the grace of the last one is over. */
  lemma RotationOf(db: Tables, keyId: string, token: Token, rotationId: string, now: int)
    requires Valid(db) && Usable(db, keyId, token.deviceId) && IsCurrent(db, token.deviceId, token.secret)
    requires db.credentials[token.deviceId].lastRotatedAt.Some?
    requires db.credentials[token.deviceId].lastRotatedAt.value + ROTATION_GRACE_MS <= now
    requires now < db.credentials[token.deviceId].expiresAt
    ensures
      var id, next := token.deviceId, Apply(db, keyId, Refresh(token, rotationId, now));
      && Decided(db, keyId, token, rotationId, now).Rotate?
      && Valid(next) && Usable(next, keyId, id) && IsPrevious(next, id, token.secret)
      && next.credentials[id].lastRotatedAt == Some(now) && next.credentials[id].lastRotationId == Some(rotationId)
  {
    assert ValidRow(db, token.deviceId);
    StepKeepsValid(db, keyId, Refresh(token, rotationId, now));
    StepKeepsUsable(db, keyId, token.deviceId, Refresh(token, rotationId, now));
  }

  function LockedAccount(tab: string, newId: string, now: int): seq<Move> {
    [Send(0, tab, newId, false), Serve(0, now, SessionRefused), Deliver(0, true)]
  }

  lemma LockedAccountUnderLock(world: World, keyId: string, tab: string, newId: string, now: int)
    requires world.flights == map[] && world.browser.device
    ensures AllUnderLock(world, keyId, LockedAccount(tab, newId, now))
    ensures AllPrompt(world, keyId, LockedAccount(tab, newId, now))
  {
    var moves := LockedAccount(tab, newId, now);
    ThreeMoves(world, keyId, moves[0], moves[1], moves[2]);
  }

  /** A rotation, and then a plain 401. */
  lemma LockedAccountRun(world: World, keyId: string, tab: string, newId: string, now: int)
    requires world.flights == map[] && world.browser.device && world.browser.rotationIds == map[]
    requires world.browser.cookie.Some? && Decided(world.db, keyId, world.browser.cookie.value, newId, now).Rotate?
    ensures
      var cookie := world.browser.cookie;
      RunMoves(world, keyId, LockedAccount(tab, newId, now))
      == World(Apply(world.db, keyId, Refresh(cookie.value, newId, now)), Browser(cookie, map[], false), map[])
  {
    var moves := LockedAccount(tab, newId, now);
    ThreeMoves(world, keyId, moves[0], moves[1], moves[2]);
    PromptReply(world, keyId, 0, tab, newId, false, now, SessionRefused, true);
    assert world.browser.rotationIds[tab := newId] - {tab} == map[];
  }

  /**
   One tab, nothing lost, under the lock: the account is locked when the access token is issued, after the rotation. The
   plain 401 drops the rotation id, so unlocking the account does not bring the session back.
   */
  lemma LockedAccountLosesTheSession(world: World, keyId: string, id: string, rotatedAt: int, tab: string,
      newId: string)
    requires Settled(world, keyId, id, rotatedAt) && newId != ""
    ensures
      var now := rotatedAt + ROTATION_GRACE_MS;
      var moves := LockedAccount(tab, newId, now);
      && AllFair(moves, id) && AllUnderLock(world, keyId, moves) && AllPrompt(world, keyId, moves)
      && Stranded(RunMoves(world, keyId, moves), keyId, id, now)
  {
    var now := rotatedAt + ROTATION_GRACE_MS;
    LockedAccountUnderLock(world, keyId, tab, newId, now);
    RotationOf(world.db, keyId, world.browser.cookie.value, newId, now);
    LockedAccountRun(world, keyId, tab, newId, now);
    BehindIsStranded(RunMoves(world, keyId, LockedAccount(tab, newId, now)), keyId, id, now);
  }

  /** Within the grace of the last rotation the current secret is kept, and nothing but lastUsedAt changes. */
  lemma KeptWithinGrace(db: Tables, keyId: string, token: Token, rotationId: string, now: int)
    requires Valid(db) && Usable(db, keyId, token.deviceId) && IsCurrent(db, token.deviceId, token.secret)
    requires db.credentials[token.deviceId].lastRotatedAt.Some?
    requires now < db.credentials[token.deviceId].lastRotatedAt.value + ROTATION_GRACE_MS
    requires now < db.credentials[token.deviceId].expiresAt
    ensures
      var id, next := token.deviceId, Apply(db, keyId, Refresh(token, rotationId, now));
      && ReplyTo(db, keyId, Some(token), rotationId, now, Issued) == Success(token)
      && Valid(next) && Usable(next, keyId, id) && SameSecrets(db.credentials[id], next.credentials[id])
      && next.credentials[id].expiresAt == db.credentials[id].expiresAt
  {
    assert ValidRow(db, token.deviceId);
    StepKeepsValid(db, keyId, Refresh(token, rotationId, now));
    StepKeepsUsable(db, keyId, token.deviceId, Refresh(token, rotationId, now));
  }

  /** Both requests have left with the current secret; the first has been served and keeps it. */
  ghost predicate Crossing(world: World, keyId: string, id: string, now: int, cookie: Option<Token>, first: string,
      second: string, id1: string, id2: string) {
    && Valid(world.db) && Usable(world.db, keyId, id)
    && cookie.Some? && cookie.value.deviceId == id && IsCurrent(world.db, id, cookie.value.secret)
    && world.db.credentials[id].lastRotatedAt == Some(now - ROTATION_GRACE_MS)
    && now < world.db.credentials[id].expiresAt
    && world.browser.rotationIds.Keys == {first, second}
    && 0 in world.flights && world.flights[0] == Flight(first, cookie, id1, true, Some(Success(cookie.value)))
    && 1 in world.flights && world.flights[1] == Flight(second, cookie, id2, true, None)
  }

  function CrossingSends(first: string, second: string, id1: string, id2: string, now: int): seq<Move> {
    [Send(0, first, id1, false), Send(1, second, id2, false), Serve(0, now - 1, Issued)]
  }

  function CrossingDeliveries(now: int): seq<Move> {
    [Serve(1, now, Issued), Deliver(1, true), Deliver(0, true)]
  }

  lemma TwoSends(world: World, first: string, second: string, id1: string, id2: string)
    requires world.flights == map[] && world.browser.rotationIds == map[] && world.browser.device && first != second
    ensures
      var cookie := world.browser.cookie;
      Sent(Sent(world, 0, first, id1, false), 1, second, id2, false)
      == World(world.db, Browser(cookie, map[first := id1, second := id2], true),
               map[0 := Flight(first, cookie, id1, true, None), 1 := Flight(second, cookie, id2, true, None)])
  {
  }

  lemma FirstIsKept(world: World, keyId: string, id: string, now: int, cookie: Option<Token>, first: string,
      second: string, id1: string, id2: string)
    requires Settled(world, keyId, id, now - ROTATION_GRACE_MS) && cookie == world.browser.cookie && first != second
    ensures
      var sent := World(world.db, Browser(cookie, map[first := id1, second := id2], true),
                        map[0 := Flight(first, cookie, id1, true, None), 1 := Flight(second, cookie, id2, true, None)]);
      Crossing(Served(sent, keyId, 0, now - 1, Issued), keyId, id, now, cookie, first, second, id1, id2)
  {
    KeptWithinGrace(world.db, keyId, cookie.value, id1, now - 1);
  }

  lemma CrossingRequests(world: World, keyId: string, id: string, rotatedAt: int, first: string, second: string,
      id1: string, id2: string)
    requires Settled(world, keyId, id, rotatedAt) && first != second
    ensures
      var now := rotatedAt + ROTATION_GRACE_MS;
      Crossing(RunMoves(world, keyId, CrossingSends(first, second, id1, id2, now)), keyId, id, now,
               world.browser.cookie, first, second, id1, id2)
  {
    var now := rotatedAt + ROTATION_GRACE_MS;
    var moves := CrossingSends(first, second, id1, id2, now);
    ThreeMoves(world, keyId, moves[0], moves[1], moves[2]);
    TwoSends(world, first, second, id1, id2);
    FirstIsKept(world, keyId, id, now, world.browser.cookie, first, second, id1, id2);
  }

  lemma CrossingReplies(world: World, keyId: string, id: string, now: int, cookie: Option<Token>, first: string,
      second: string, id1: string, id2: string)
    requires Crossing(world, keyId, id, now, cookie, first, second, id1, id2)
    ensures Stranded(RunMoves(world, keyId, CrossingDeliveries(now)), keyId, id, now)
  {
    var moves := CrossingDeliveries(now);
    ThreeMoves(world, keyId, moves[0], moves[1], moves[2]);
    RotationOf(world.db, keyId, cookie.value, id2, now);
    var last := DeliveredTo(DeliveredTo(Served(world, keyId, 1, now, Issued), 1, true), 0, true);
    assert last.browser.cookie == cookie && last.browser.rotationIds == map[];
    BehindIsStranded(last, keyId, id, now);
  }

  /**
   Two tabs without the lock, nothing lost: the request of the first is served just before the grace of the last
   rotation ends and keeps the secret, that of the second just after and rotates; the replies arrive in the other order.
   */
  lemma CrossingRepliesLoseTheSession(world: World, keyId: string, id: string, rotatedAt: int, first: string,
      second: string, id1: string, id2: string)
    requires Settled(world, keyId, id, rotatedAt) && first != second && id1 != "" && id2 != ""
    ensures
      var now := rotatedAt + ROTATION_GRACE_MS;
      var moves := CrossingSends(first, second, id1, id2, now) + CrossingDeliveries(now);
      AllFair(moves, id) && Stranded(RunMoves(world, keyId, moves), keyId, id, now)
  {
    var now := rotatedAt + ROTATION_GRACE_MS;
    var sends, deliveries := CrossingSends(first, second, id1, id2, now), CrossingDeliveries(now);
    RunsInTurn(world, keyId, sends, deliveries);
    CrossingRequests(world, keyId, id, rotatedAt, first, second, id1, id2);
    CrossingReplies(RunMoves(world, keyId, sends), keyId, id, now, world.browser.cookie, first, second, id1, id2);
  }

  /** The tab has given up its first request, and waits for the second; neither has been served. */
  ghost predicate GivenUp(world: World, keyId: string, id: string, now: int, tab: string, newId: string) {
    var cookie := world.browser.cookie;
    && Valid(world.db) && Usable(world.db, keyId, id)
    && cookie.Some? && cookie.value.deviceId == id && IsCurrent(world.db, id, cookie.value.secret)
    && world.db.credentials[id].lastRotatedAt == Some(now - ROTATION_GRACE_MS)
    && now < world.db.credentials[id].expiresAt
    && world.browser.rotationIds.Keys == {tab}
    && world.flights == map[0 := Flight(tab, cookie, newId, false, None), 1 := Flight(tab, cookie, newId, true, None)]
  }

  function GiveUpOnce(tab: string, newId: string): seq<Move> {
    [Send(0, tab, newId, false), Abandon(0), Send(1, tab, newId, false)]
  }

  function KeptThenLate(now: int): seq<Move> {
    [Serve(1, now - 1, Issued), Deliver(1, true), Serve(0, now, Issued)]
  }

  lemma GivingUp(world: World, keyId: string, id: string, rotatedAt: int, tab: string, newId: string)
    requires Settled(world, keyId, id, rotatedAt)
    ensures AllUnderLock(world, keyId, GiveUpOnce(tab, newId))
    ensures
      GivenUp(RunMoves(world, keyId, GiveUpOnce(tab, newId)), keyId, id, rotatedAt + ROTATION_GRACE_MS, tab, newId)
  {
    var moves := GiveUpOnce(tab, newId);
    ThreeMoves(world, keyId, moves[0], moves[1], moves[2]);
    var sent := Sent(world, 0, tab, newId, false);
    assert sent.flights == map[0 := Flight(tab, world.browser.cookie, newId, true, None)];
    assert Next(sent, keyId, Abandon(0)).flights == map[0 := Flight(tab, world.browser.cookie, newId, false, None)];
  }

  lemma SecondIsKept(world: World, keyId: string, id: string, now: int, tab: string, newId: string)
    requires GivenUp(world, keyId, id, now, tab, newId)
    ensures
      var cookie, kept := world.browser.cookie, DeliveredTo(Served(world, keyId, 1, now - 1, Issued), 1, true);
      && kept.db == Apply(world.db, keyId, Refresh(cookie.value, newId, now - 1))
      && kept.browser == Browser(cookie, map[], true)
      && kept.flights == map[0 := Flight(tab, cookie, newId, false, None)]
  {
    KeptWithinGrace(world.db, keyId, world.browser.cookie.value, newId, now - 1);
    AnsweredAtOnce(world, keyId, 1, now - 1, Issued, true);
    assert world.browser.rotationIds - {tab} == map[];
  }

  lemma LateService(world: World, keyId: string, id: string, now: int, tab: string, newId: string)
    requires GivenUp(world, keyId, id, now, tab, newId)
    ensures Stranded(RunMoves(world, keyId, KeptThenLate(now)), keyId, id, now)
  {
    var cookie, moves := world.browser.cookie, KeptThenLate(now);
    ThreeMoves(world, keyId, moves[0], moves[1], moves[2]);
    SecondIsKept(world, keyId, id, now, tab, newId);
    KeptWithinGrace(world.db, keyId, cookie.value, newId, now - 1);
    var kept := DeliveredTo(Served(world, keyId, 1, now - 1, Issued), 1, true);
    RotationOf(kept.db, keyId, cookie.value, newId, now);
    BehindIsStranded(Served(kept, keyId, 0, now, Issued), keyId, id, now);
  }

  lemma KeptUnderLock(world: World, keyId: string, id: string, now: int, tab: string, newId: string)
    requires GivenUp(world, keyId, id, now, tab, newId)
    ensures AllUnderLock(world, keyId, KeptThenLate(now))
  {
    var moves := KeptThenLate(now);
    ThreeMoves(world, keyId, moves[0], moves[1], moves[2]);
  }

  lemma LateMovesAreFair(id: string, now: int, tab: string, newId: string)
    requires newId != ""
    ensures AllFair(GiveUpOnce(tab, newId) + KeptThenLate(now), id)
  {
  }

  /**
   One tab, under the lock: the request it has given up is served after the next one, once the grace is over. The reply
   that kept the secret has dropped the rotation id that the late rotation is made with.
   */
  lemma LateServiceLosesTheSession(world: World, keyId: string, id: string, rotatedAt: int, tab: string, newId: string)
    requires Settled(world, keyId, id, rotatedAt) && newId != ""
    ensures
      var now := rotatedAt + ROTATION_GRACE_MS;
      var first, more := GiveUpOnce(tab, newId), KeptThenLate(now);
      && AllFair(first + more, id) && AllUnderLock(world, keyId, first + more)
      && Stranded(RunMoves(world, keyId, first + more), keyId, id, now)
  {
    var now := rotatedAt + ROTATION_GRACE_MS;
    var first, more := GiveUpOnce(tab, newId), KeptThenLate(now);
    GivingUp(world, keyId, id, rotatedAt, tab, newId);
    LateMovesAreFair(id, now, tab, newId);
    assert AllUnderLock(world, keyId, first + more) by {
      RunsInTurn(world, keyId, first, more);
      KeptUnderLock(RunMoves(world, keyId, first), keyId, id, now, tab, newId);
    }
    assert Stranded(RunMoves(world, keyId, first + more), keyId, id, now) by {
      RunsInTurn(world, keyId, first, more);
      LateService(RunMoves(world, keyId, first), keyId, id, now, tab, newId);
    }
  }

  // ---------------------------------------------------------------- deviceRefresh

  /** What the network does to one attempt: the reply may lose its body although its headers arrive. */
  datatype Fate = RequestLost | ReplyLost | BodyLost | Delivered

  datatype Attempt = Attempt(fate: Fate, now: int, aftermath: Aftermath)

  /** What the tab learns; without a response it has waited for ten seconds or failed to connect. */
  datatype Response = NoResponse | Status401 | Status409 | OtherStatus | Refreshed

  function ResponseOf(reply: Reply, fate: Fate): Response {
    if fate.RequestLost? || fate.ReplyLost? then NoResponse else
    match reply
    case Success(_) => if fate.BodyLost? then NoResponse else Refreshed
    case CodedUnauthorized(_) => Status401
    case PlainUnauthorized => Status401
    case Conflict => Status409
    case Failure => OtherStatus
  }

  /** The moves of one attempt. */
  function AttemptMoves(flight: nat, tab: string, newId: string, retry: bool, attempt: Attempt): seq<Move> {
    var send, serve := Send(flight, tab, newId, retry), Serve(flight, attempt.now, attempt.aftermath);
    match attempt.fate
    case RequestLost => [send, Abandon(flight)]
    case ReplyLost => [send, serve, Abandon(flight)]
    case BodyLost => [send, serve, Deliver(flight, false)]
    case Delivered => [send, serve, Deliver(flight, true)]
  }

  function AttemptReply(db: Tables, keyId: string, cookie: Option<Token>, rotationId: string, attempt: Attempt): Reply {
    ReplyTo(db, keyId, cookie, rotationId, attempt.now, attempt.aftermath)
  }

  function DbAfterAttempt(db: Tables, keyId: string, cookie: Option<Token>, rotationId: string,
      attempt: Attempt): Tables {
    if attempt.fate.RequestLost? then db else DbAfter(db, keyId, cookie, rotationId, attempt.now, attempt.aftermath)
  }

  function BrowserAfterAttempt(browser: Browser, tab: string, reply: Reply, fate: Fate): Browser {
    if fate.RequestLost? || fate.ReplyLost? then browser else BrowserAfter(browser, tab, reply, fate.Delivered?)
  }

  lemma AttemptIsMoves(world: World, keyId: string, flight: nat, tab: string, newId: string, retry: bool,
      attempt: Attempt)
    requires flight !in world.flights && (world.browser.device || retry)
    ensures
      var next := RunMoves(world, keyId, AttemptMoves(flight, tab, newId, retry, attempt));
      var cookie, rotationId := world.browser.cookie, RotationIdOf(world.browser, tab, newId);
      var reply := AttemptReply(world.db, keyId, cookie, rotationId, attempt);
      && next.db == DbAfterAttempt(world.db, keyId, cookie, rotationId, attempt)
      && next.browser == BrowserAfterAttempt(Stored(world.browser, tab, newId), tab, reply, attempt.fate)
      && (attempt.fate.BodyLost? || attempt.fate.Delivered? ==> next.flights == world.flights)
  {
    var moves := AttemptMoves(flight, tab, newId, retry, attempt);
    if attempt.fate.RequestLost? {
      TwoMoves(world, keyId, moves[0], moves[1]);
    } else {
      ThreeMoves(world, keyId, moves[0], moves[1], moves[2]);
      if !attempt.fate.ReplyLost? {
        PromptReply(world, keyId, flight, tab, newId, retry, attempt.now, attempt.aftermath, attempt.fate.Delivered?);
      }
    }
  }

  lemma ConflictChangesNothing(db: Tables, keyId: string, cookie: Option<Token>, rotationId: string, attempt: Attempt)
    requires AttemptReply(db, keyId, cookie, rotationId, attempt).Conflict?
    ensures DbAfterAttempt(db, keyId, cookie, rotationId, attempt) == db
  {
  }

  ghost predicate NoneWaits(world: World) {
    forall f :: f in world.flights ==> !world.flights[f].waiting
  }

  /** What an attempt leaves under way: its own request, given up. */
  lemma AttemptLeavesNoneWaiting(world: World, keyId: string, flight: nat, tab: string, newId: string, retry: bool,
      attempt: Attempt)
    requires flight !in world.flights && NoneWaits(world) && (world.browser.device || retry)
    ensures NoneWaits(RunMoves(world, keyId, AttemptMoves(flight, tab, newId, retry, attempt)))
  {
    var moves := AttemptMoves(flight, tab, newId, retry, attempt);
    if attempt.fate.RequestLost? {
      TwoMoves(world, keyId, moves[0], moves[1]);
    } else if attempt.fate.ReplyLost? {
      ThreeMoves(world, keyId, moves[0], moves[1], moves[2]);
    } else {
      AttemptIsMoves(world, keyId, flight, tab, newId, retry, attempt);
    }
  }

  lemma AttemptIsFair(id: string, flight: nat, tab: string, newId: string, retry: bool, attempt: Attempt)
    requires newId != ""
    ensures AllFair(AttemptMoves(flight, tab, newId, retry, attempt), id)
  {
  }

  /** An attempt that starts while nothing is waited for is orderly. */
  lemma AttemptIsOrderly(world: World, keyId: string, flight: nat, tab: string, newId: string, retry: bool,
      attempt: Attempt)
    requires flight !in world.flights && NoneWaits(world) && (world.browser.device || retry)
    ensures Orderly(world, keyId, AttemptMoves(flight, tab, newId, retry, attempt))
  {
    var moves := AttemptMoves(flight, tab, newId, retry, attempt);
    AttemptLeavesNoneWaiting(world, keyId, flight, tab, newId, retry, attempt);
    if attempt.fate.RequestLost? {
      TwoMoves(world, keyId, moves[0], moves[1]);
    } else {
      ThreeMoves(world, keyId, moves[0], moves[1], moves[2]);
    }
  }

  /** The attempt that decides: the second one after a first 409, and otherwise the first. */
  function LastAttempt(db: Tables, keyId: string, cookie: Option<Token>, rotationId: string,
      attempts: seq<Attempt>): Attempt
    requires |attempts| == 2
  {
    var first := AttemptReply(db, keyId, cookie, rotationId, attempts[0]);
    if ResponseOf(first, attempts[0].fate).Status409? then attempts[1] else attempts[0]
  }

  /** The moves of deviceRefresh. */
  function RefreshMoves(world: World, keyId: string, flight: nat, tab: string, newId: string,
      attempts: seq<Attempt>): seq<Move>
    requires |attempts| == 2
  {
    var first := AttemptMoves(flight, tab, newId, false, attempts[0]);
    var rotationId := RotationIdOf(world.browser, tab, newId);
    var reply := AttemptReply(world.db, keyId, world.browser.cookie, rotationId, attempts[0]);
    if ResponseOf(reply, attempts[0].fate).Status409? then first + AttemptMoves(flight, tab, newId, true, attempts[1])
    else first
  }

  /** A first 409 has left server and cookie alone, so that the attempt that decides acts on what the call found. */
  lemma RefreshIsMoves(world: World, keyId: string, flight: nat, tab: string, newId: string, attempts: seq<Attempt>)
    requires |attempts| == 2 && flight !in world.flights && world.browser.device
    ensures
      var last := RunMoves(world, keyId, RefreshMoves(world, keyId, flight, tab, newId, attempts));
      var cookie, rotationId := world.browser.cookie, RotationIdOf(world.browser, tab, newId);
      var attempt := LastAttempt(world.db, keyId, cookie, rotationId, attempts);
      var reply := AttemptReply(world.db, keyId, cookie, rotationId, attempt);
      && last.db == DbAfterAttempt(world.db, keyId, cookie, rotationId, attempt)
      && last.browser == BrowserAfterAttempt(Stored(world.browser, tab, newId), tab, reply, attempt.fate)
  {
    var cookie, rotationId := world.browser.cookie, RotationIdOf(world.browser, tab, newId);
    var moves := AttemptMoves(flight, tab, newId, false, attempts[0]);
    AttemptIsMoves(world, keyId, flight, tab, newId, false, attempts[0]);
    if ResponseOf(AttemptReply(world.db, keyId, cookie, rotationId, attempts[0]), attempts[0].fate).Status409? {
      var conflict := World(world.db, Stored(world.browser, tab, newId), world.flights);
      assert RunMoves(world, keyId, moves) == conflict;
      assert Stored(conflict.browser, tab, newId) == conflict.browser by {
        assert conflict.browser.rotationIds[tab := rotationId] == conflict.browser.rotationIds;
      }
      RunsInTurn(world, keyId, moves, AttemptMoves(flight, tab, newId, true, attempts[1]));
      AttemptIsMoves(conflict, keyId, flight, tab, newId, true, attempts[1]);
    }
  }

  /** Under the lock, with nothing given up served, and with nothing waited for in the end. */
  ghost predicate Orderly(world: World, keyId: string, moves: seq<Move>) {
    AllUnderLock(world, keyId, moves) && AllPrompt(world, keyId, moves) && NoneWaits(RunMoves(world, keyId, moves))
  }

  lemma OrderlyInTurn(world: World, keyId: string, moves: seq<Move>, more: seq<Move>)
    requires Orderly(world, keyId, moves) && Orderly(RunMoves(world, keyId, moves), keyId, more)
    ensures Orderly(world, keyId, moves + more)
  {
    RunsInTurn(world, keyId, moves, more);
  }

  lemma SecondAttemptIsOrderly(world: World, keyId: string, flight: nat, tab: string, newId: string,
      attempts: seq<Attempt>)
    requires |attempts| == 2 && flight !in world.flights && NoneWaits(world) && world.browser.device
    requires attempts[0].fate.BodyLost? || attempts[0].fate.Delivered?
    ensures Orderly(world, keyId, AttemptMoves(flight, tab, newId, false, attempts[0])
                                  + AttemptMoves(flight, tab, newId, true, attempts[1]))
  {
    var first := AttemptMoves(flight, tab, newId, false, attempts[0]);
    AttemptIsMoves(world, keyId, flight, tab, newId, false, attempts[0]);
    AttemptIsOrderly(world, keyId, flight, tab, newId, false, attempts[0]);
    AttemptIsOrderly(RunMoves(world, keyId, first), keyId, flight, tab, newId, true, attempts[1]);
    OrderlyInTurn(world, keyId, first, AttemptMoves(flight, tab, newId, true, attempts[1]));
  }

  /** A call is fair and, where nothing is waited for when it starts, orderly: the theorems about runs apply to it. */
  lemma RefreshIsOrderly(world: World, keyId: string, id: string, flight: nat, tab: string, newId: string,
      attempts: seq<Attempt>)
    requires |attempts| == 2 && flight !in world.flights && world.browser.device && NoneWaits(world) && newId != ""
    ensures AllFair(RefreshMoves(world, keyId, flight, tab, newId, attempts), id)
    ensures Orderly(world, keyId, RefreshMoves(world, keyId, flight, tab, newId, attempts))
  {
    var cookie, rotationId := world.browser.cookie, RotationIdOf(world.browser, tab, newId);
    AttemptIsFair(id, flight, tab, newId, false, attempts[0]);
    AttemptIsFair(id, flight, tab, newId, true, attempts[1]);
    if ResponseOf(AttemptReply(world.db, keyId, cookie, rotationId, attempts[0]), attempts[0].fate).Status409? {
      SecondAttemptIsOrderly(world, keyId, flight, tab, newId, attempts);
    } else {
      AttemptIsOrderly(world, keyId, flight, tab, newId, false, attempts[0]);
    }
  }

  /** A call that starts in sync while nothing is waited for, and has the lock, is lost by a losing 401 only. */
  lemma RefreshInSyncExactly(world: World, keyId: string, id: string, flight: nat, tab: string, newId: string,
      attempts: seq<Attempt>)
    requires InSync(world, id) && OneDevice(world, id) && Queued(world) && NoneWaits(world) && world.browser.device
    requires |attempts| == 2 && flight !in world.flights && newId != ""
    ensures
      var moves := RefreshMoves(world, keyId, flight, tab, newId, attempts);
      InSyncThroughout(world, keyId, id, moves) <==> NoLosingReply(world, keyId, id, moves)
  {
    RefreshIsOrderly(world, keyId, id, flight, tab, newId, attempts);
    InSyncPromptly(world, keyId, id, RefreshMoves(world, keyId, flight, tab, newId, attempts));
  }

  class BrowserSession {
    const server: DeviceCredentials
    var cookie: Option<Token>
    var rotationIds: map<string, string>
    var device: bool

    constructor (server: DeviceCredentials, cookie: Option<Token>)
      ensures this.server == server && State() == Browser(cookie, map[], true)
    {
      this.server, this.cookie, this.rotationIds, this.device := server, cookie, map[], true;
    }

    function State(): Browser
      reads this
    {
      Browser(cookie, rotationIds, device)
    }

    /** The session route, with the status and Set-Cookie it answers with. */
    method Session(token: Option<Token>, rotationId: string, now: int, aftermath: Aftermath) returns (reply: Reply)
      requires Valid(server.Db())
      modifies server
      ensures Valid(server.Db())
      ensures server.Db() == DbAfter(old(server.Db()), server.keyId, token, rotationId, now, aftermath)
      ensures reply == ReplyTo(old(server.Db()), server.keyId, token, rotationId, now, aftermath)
    {
      if aftermath.TurnedAway? { return Failure; }
      var session := server.RotateDeviceSession(token, rotationId, now);
      reply := ReplyFor(if session.Ok? then Ok(session.value.token) else Err(session.error), aftermath);
    }

    /**
     One fetch of /api/auth/device/session; the browser itself applies the reply's Set-Cookie. What is left to the tab
     after a success or a 401 is to drop its rotation id and to set or clear the session kind.
     */
    method FetchSession(ghost tab: string, rotationId: string, attempt: Attempt) returns (response: Response)
      requires Valid(server.Db())
      modifies this`cookie, server
      ensures Valid(server.Db())
      ensures server.Db() == DbAfterAttempt(old(server.Db()), server.keyId, old(cookie), rotationId, attempt)
      ensures
        var reply := AttemptReply(old(server.Db()), server.keyId, old(cookie), rotationId, attempt);
        && response == ResponseOf(reply, attempt.fate)
        && BrowserAfterAttempt(old(State()), tab, reply, attempt.fate)
           == (if response.Refreshed? || response.Status401? then
                 Browser(cookie, rotationIds - {tab}, response.Refreshed?)
               else State())
        && (response.Status409? ==> server.Db() == old(server.Db()))
    {
      if attempt.fate.RequestLost? { return NoResponse; }
      ghost var db, before := server.Db(), cookie;
      var reply := Session(cookie, rotationId, attempt.now, attempt.aftermath);
      if attempt.fate.ReplyLost? { return NoResponse; }
      match reply
      case Success(token) =>
        cookie := Some(token);
        response := if attempt.fate.BodyLost? then NoResponse else Refreshed;
      case CodedUnauthorized(_) =>
        cookie := None;
        response := Status401;
      case PlainUnauthorized => response := Status401;
      case Conflict =>
        ConflictChangesNothing(db, server.keyId, before, rotationId, attempt);
        response := Status409;
      case Failure => response := OtherStatus;
    }

    /**
     deviceRefresh, which its caller enters only with a device session: the rotation id is stored before the first
     fetch, and removed after success and after a 401. RefreshIsMoves has the moves that this amounts to.
     */
    method DeviceRefresh(tab: string, newId: string, attempts: seq<Attempt>) returns (ok: bool)
      requires Valid(server.Db()) && |attempts| == 2 && device
      modifies this, server
      ensures Valid(server.Db())
      ensures
        var db, rotationId := old(server.Db()), RotationIdOf(old(State()), tab, newId);
        var attempt := LastAttempt(db, server.keyId, old(cookie), rotationId, attempts);
        var reply := AttemptReply(db, server.keyId, old(cookie), rotationId, attempt);
        && server.Db() == DbAfterAttempt(db, server.keyId, old(cookie), rotationId, attempt)
        && State() == BrowserAfterAttempt(Stored(old(State()), tab, newId), tab, reply, attempt.fate)
        && ok == ResponseOf(reply, attempt.fate).Refreshed?
    {
      var rotationId := if tab in rotationIds then rotationIds[tab] else newId;
      rotationIds := rotationIds[tab := rotationId];
      ghost var db, stored := server.Db(), State();
      assert stored == Stored(old(State()), tab, newId);
      ghost var last := LastAttempt(db, server.keyId, stored.cookie, rotationId, attempts);
      var attempt := 0;
      while attempt < 2
        invariant attempt <= 1 && Valid(server.Db()) && server.Db() == db && State() == stored
        invariant attempt == 0 || last == attempts[1]
      {
        var response := FetchSession(tab, rotationId, attempts[attempt]);
        if response.Status409? && attempt == 0 {
          attempt := attempt + 1;
          continue;
        }
        assert last == attempts[attempt];
        if response.Refreshed? || response.Status401? {
          rotationIds, device := rotationIds - {tab}, response.Refreshed?;
        }
        return response.Refreshed?;
      }
      ok := false;
    }
  }
}
