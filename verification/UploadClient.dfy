/**
 The receiving side of an upload: packages/composite/src/upload.ts (`run`) and upload-body.ts.

 Every callback and remote call may fail, and every ownership check may find that the owner ended;
 a Script says what happens at each of these points. SHA-256 is a free constructor.
 */
module UploadClient {
  import opened Wrappers
  import opened Arithmetic
  import opened Text

  const MAX_CAPTURED_UPLOAD_BYTES := 2 * 1024 * 1024 * 1024

  type Bytes = seq<bv8>

  datatype Digest = Sha256(content: Bytes)

  /** A Blob: its declared size, and the parts its stream yields before it ends or, at part `breaksAt`, fails. */
  datatype Body = Body(size: int, parts: seq<Bytes>, breaksAt: Option<nat>)

  datatype Limits = Limits(maximumBytes: int, timeoutSeconds: int)

  /** requireUploadLimits */
  predicate ValidLimits(limits: Limits) {
    1 <= limits.maximumBytes <= MAX_CAPTURED_UPLOAD_BYTES && 1 <= limits.timeoutSeconds <= 300
  }

  function Joined(parts: seq<Bytes>): Bytes {
    if parts == [] then [] else Joined(parts[..|parts| - 1]) + parts[|parts| - 1]
  }

  lemma {:induction false} JoinedGrows(parts: seq<Bytes>, i: nat)
    requires i <= |parts|
    ensures |Joined(parts[..i])| <= |Joined(parts)|
  {
    if i == |parts| {
      assert parts[..i] == parts;
    } else {
      JoinedGrows(parts[..|parts| - 1], i);
      assert parts[..|parts| - 1][..i] == parts[..i];
    }
  }

  // ---------------------------------------------------------------- digestCapturedBody

  /** The k-th ownership check of a run. */
  type Ownership = nat -> bool

  /** The body is within bounds, its stream yields exactly its declared size, and the owner stays throughout. */
  ghost predicate Digestible(body: Body, maximumBytes: int, owned: Ownership, check: nat) {
    && 1 <= maximumBytes <= 2_147_483_648 && 1 <= body.size <= maximumBytes
    && (body.breaksAt.Some? ==> body.breaksAt.value > |body.parts|)
    && |Joined(body.parts)| == body.size
    && forall k :: check <= k < check + 2 * |body.parts| + 3 ==> owned(k)
  }

  datatype BodyDigest = BodyDigest(contentDigest: Digest, byteLength: int)

  /** The stream ends, with the owner current throughout, before more than the declared size has come. */
  ghost predicate ReadToItsEnd(body: Body, owned: Ownership, check: nat) {
    && (body.breaksAt.Some? ==> body.breaksAt.value > |body.parts|) && |Joined(body.parts)| <= body.size
    && forall k :: check <= k < check + 2 * |body.parts| + 3 ==> owned(k)
  }

  /** digestCapturedBody: part by part; None where it throws. The reader is cancelled unless the stream ended. */
  method DigestCapturedBody(body: Body, maximumBytes: int, owned: Ownership, check: nat)
    returns (digest: Option<BodyDigest>, cancelled: bool)
    ensures digest.Some? <==> Digestible(body, maximumBytes, owned, check)
    ensures digest.Some? ==> digest.value == BodyDigest(Sha256(Joined(body.parts)), |Joined(body.parts)|) && !cancelled
    ensures cancelled <==>
      && owned(check) && 1 <= maximumBytes <= 2_147_483_648 && 1 <= body.size <= maximumBytes
      && !ReadToItsEnd(body, owned, check)
  {
    cancelled := false;
    if !owned(check) { return None, false; }
    if !(1 <= maximumBytes <= MAX_CAPTURED_UPLOAD_BYTES) || body.size < 1 || body.size > maximumBytes {
      return None, false;
    }
    var hashed: Bytes := [];
    var length, i := 0, 0;
    while true
      invariant 0 <= i <= |body.parts| && length == |hashed| <= body.size && hashed == Joined(body.parts[..i])
      invariant forall k :: check <= k < check + 2 * i + 1 ==> owned(k)
      invariant body.breaksAt.Some? ==> i <= body.breaksAt.value
      decreases |body.parts| - i
    {
      JoinedGrows(body.parts, i);
      if !owned(check + 2 * i + 1) { return None, true; }
      if body.breaksAt == Some(i) { return None, true; }
      if !owned(check + 2 * i + 2) { return None, true; }
      if i == |body.parts| { break; }
      length := length + |body.parts[i]|;
      assert body.parts[..i + 1][..i] == body.parts[..i];
      JoinedGrows(body.parts, i + 1);
      if length > maximumBytes || length > body.size { return None, true; }
      hashed := hashed + body.parts[i];
      i := i + 1;
    }
    assert body.parts[..i] == body.parts;
    if length != body.size { return None, false; }
    digest := Some(BodyDigest(Sha256(hashed), length));
  }

  // ---------------------------------------------------------------- what the other parties do

  datatype Outcome<T> = Returns(value: T) | Throws

  /**
   A reply to begin-upload; `leaks` when it carries a session token, `expiresAt` is None when it does not parse, and
   `contentDigest` when it is not of the form of a SHA-256.
   */
  datatype BeginReply = BeginReply(leaks: bool, receipt: string, requestId: string, risk: string,
                                   contentDigest: Option<Digest>, byteLength: int, limits: Limits,
                                   expiresAt: Option<int>)

  datatype FinalizeReply = FinalizeReply(leaks: bool, allowed: bool, requestId: string, risk: string,
                                         expiresAt: Option<int>, projectKey: string, sourceProject: string,
                                         readable: bool)

  /** What the capture callback returned: nothing usable, or a body, with a dispose function or without. */
  datatype Capture = Capture(body: Body, disposable: bool)

  /**
   `classified`: the resource is declared important and has its three callbacks; `requestId` is None where the operation
   is not a canonical delegated one. A failing cancel call is ignored, so that it needs no outcome.
   */
  datatype Script = Script(
    arrivalToken: string,
    classified: bool,
    owned: Ownership,
    now: int,
    route: Limits,
    requestId: Option<string>,
    projectKey: string,
    begin: Outcome<BeginReply>,
    capture: Outcome<Option<Capture>>,
    finalize: Outcome<FinalizeReply>,
    authorize: Outcome<bool>,
    execute: Outcome<()>,
    dispose: Outcome<()>)

  datatype Effect =
    | BeginCall
    | CaptureCall
    | FinalizeCall(receipt: string, digest: BodyDigest)
    | AuthorizeCall
    | ExecuteCall(content: Bytes)
    | DisposeCall
    | CancelCall(receipt: string)

  /** lifetime() */
  predicate ValidLifetime(expiresAt: Option<int>, now: int, maximumSeconds: int) {
    expiresAt.Some? && now < expiresAt.value <= now + maximumSeconds * 1000
  }

  /** What a begin reply must be: for this request, in time, with limits within the route's and a body within these. */
  ghost predicate ReservationAccepted(s: Script, reply: BeginReply) {
    && IsOpaque(reply.receipt) && reply.contentDigest.Some?
    && s.requestId == Some(reply.requestId) && reply.risk == "important"
    && 1 <= reply.byteLength <= reply.limits.maximumBytes <= s.route.maximumBytes
    && 1 <= reply.limits.timeoutSeconds <= s.route.timeoutSeconds
    && reply.limits.maximumBytes <= 2_147_483_648 && reply.limits.timeoutSeconds <= 300
    && reply.expiresAt.Some? && s.now < reply.expiresAt.value <= s.now + 1000 * reply.limits.timeoutSeconds
  }

  /** What a finalize reply must be: allowed, for this request and project, and with the reservation's expiry. */
  ghost predicate FinalizeAccepted(s: Script, reply: FinalizeReply, expiresAt: Option<int>) {
    && !reply.leaks && reply.allowed && s.requestId == Some(reply.requestId) && reply.risk == "important"
    && reply.expiresAt == expiresAt && reply.projectKey == s.projectKey && reply.sourceProject != "" && reply.readable
  }

  // ---------------------------------------------------------------- how far a script leads

  /** What `run` requires before its try block. */
  ghost predicate Accepted(s: Script) {
    && s.owned(0) && IsOpaque(s.arrivalToken) && s.classified && s.requestId.Some?
    && 1 <= s.route.maximumBytes <= 2_147_483_648 && 1 <= s.route.timeoutSeconds <= 300
  }

  ghost predicate ReachesCapture(s: Script) {
    && Accepted(s) && s.begin.Returns? && !s.begin.value.leaks && s.owned(1)
    && ReservationAccepted(s, s.begin.value) && s.owned(2)
  }

  /** The captured body is one that can be disposed of, and byte for byte the reserved one. */
  ghost predicate ReachesFinalize(s: Script) {
    && ReachesCapture(s) && s.capture.Returns? && s.owned(3)
    && s.capture.value.Some? && s.capture.value.value.disposable
    && var body := s.capture.value.value.body;
       Digestible(body, s.begin.value.limits.maximumBytes, s.owned, 4)
       && s.begin.value.contentDigest == Some(Sha256(Joined(body.parts)))
       && s.begin.value.byteLength == |Joined(body.parts)|
  }

  /** The ownership check after finalize; digesting has made all up to this one. */
  ghost function ChecksSoFar(s: Script): nat
    requires ReachesFinalize(s)
  {
    7 + 2 * |s.capture.value.value.body.parts|
  }

  ghost predicate ReachesAuthorize(s: Script) {
    && ReachesFinalize(s) && s.finalize.Returns? && s.owned(ChecksSoFar(s))
    && FinalizeAccepted(s, s.finalize.value, s.begin.value.expiresAt)
  }

  ghost predicate ReachesExecute(s: Script) {
    ReachesAuthorize(s) && s.authorize == Returns(true) && s.owned(ChecksSoFar(s) + 1)
  }

  // ---------------------------------------------------------------- run

  /** The variables of `run` that its finally block looks at. */
  datatype Held = Held(receipt: Option<string>, captured: Option<Capture>, finalized: bool)

  predicate IsExecute(e: Effect) { e.ExecuteCall? }
  predicate IsDispose(e: Effect) { e.DisposeCall? }
  predicate IsCancel(e: Effect) { e.CancelCall? }

  function Times(log: seq<Effect>, kind: Effect -> bool): nat {
    if log == [] then 0 else Times(log[..|log| - 1], kind) + if kind(log[|log| - 1]) then 1 else 0
  }

  lemma TimesAppends(log: seq<Effect>, e: Effect, kind: Effect -> bool)
    ensures Times(log + [e], kind) == Times(log, kind) + if kind(e) then 1 else 0
  {
    assert (log + [e])[..|log|] == log;
  }

  /** What the try block promises its finally block: how far it came, and what it then holds. */
  ghost predicate Reached(s: Script, log: seq<Effect>, held: Held) {
    && 1 <= |log| <= 5
    && log[0] == BeginCall
    && held.receipt == (if s.begin.Returns? && !s.begin.value.leaks && IsOpaque(s.begin.value.receipt)
                        then Some(s.begin.value.receipt) else None)
    && held.captured == (if |log| >= 2 && s.capture.Returns? then s.capture.value else None)
    && (|log| >= 2 ==>
      && log[1] == CaptureCall
      && s.begin.Returns? && !s.begin.value.leaks && ReservationAccepted(s, s.begin.value))
    && (|log| >= 3 ==>
      && held.captured.Some? && held.captured.value.disposable
      && var content := Joined(held.captured.value.body.parts);
      && s.begin.value.contentDigest == Some(Sha256(content)) && s.begin.value.byteLength == |content|
      && log[2] == FinalizeCall(s.begin.value.receipt, BodyDigest(Sha256(content), |content|)))
    && (held.finalized <==> |log| >= 4)
    && (|log| >= 4 ==>
          && log[3] == AuthorizeCall && s.finalize.Returns?
          && FinalizeAccepted(s, s.finalize.value, s.begin.value.expiresAt))
    && (|log| == 5 ==> log[4] == ExecuteCall(Joined(held.captured.value.body.parts)) && s.authorize == Returns(true))
  }

  /** The try block of `run`. */
  method Attempt(s: Script) returns (ok: bool, log: seq<Effect>, held: Held)
    requires Accepted(s)
    ensures Reached(s, log, held)
    ensures (|log| >= 2 <==> ReachesCapture(s)) && (|log| >= 3 <==> ReachesFinalize(s))
    ensures (|log| >= 4 <==> ReachesAuthorize(s)) && (|log| >= 5 <==> ReachesExecute(s))
    ensures ok <==> ReachesExecute(s) && s.execute.Returns?
  {
    log, held, ok := [], Held(None, None, false), false;
    log := log + [BeginCall];
    if s.begin.Throws? || s.begin.value.leaks { return; }
    var started := s.begin.value;
    if IsOpaque(started.receipt) { held := held.(receipt := Some(started.receipt)); }
    if !s.owned(1) { return; }
    var effective := started.limits;
    if !ValidLimits(effective) { return; }
    if !ValidLifetime(started.expiresAt, s.now, Min(s.route.timeoutSeconds, effective.timeoutSeconds)) { return; }
    if held.receipt.None? || started.requestId != s.requestId.value || started.risk != "important"
       || started.contentDigest.None? || started.byteLength < 1 || started.byteLength > effective.maximumBytes
       || effective.maximumBytes > s.route.maximumBytes || effective.timeoutSeconds > s.route.timeoutSeconds { return; }
    if !s.owned(2) { return; }
    log := log + [CaptureCall];
    if s.capture.Throws? { return; }
    held := held.(captured := s.capture.value);
    if !s.owned(3) { return; }
    if held.captured.None? || !held.captured.value.disposable { return; }
    var body := held.captured.value.body;
    var digest, _ := DigestCapturedBody(body, effective.maximumBytes, s.owned, 4);
    if digest.None? { return; }
    if digest.value.contentDigest != started.contentDigest.value
       || digest.value.byteLength != started.byteLength { return; }
    log := log + [FinalizeCall(held.receipt.value, digest.value)];
    if s.finalize.Throws? || s.finalize.value.leaks { return; }
    var check := 4 + 2 * |body.parts| + 3;
    if !s.owned(check) { return; }
    var result := s.finalize.value;
    if !result.allowed || result.requestId != s.requestId.value || result.risk != "important"
       || result.expiresAt != started.expiresAt || result.projectKey != s.projectKey || result.sourceProject == ""
       || !result.readable { return; }
    held := held.(finalized := true);
    log := log + [AuthorizeCall];
    if s.authorize != Returns(true) { return; }
    if !s.owned(check + 1) { return; }
    log := log + [ExecuteCall(Joined(body.parts))];
    ok := s.execute.Returns?;
  }

  /** The capture callback returned something that has to be disposed. */
  ghost predicate HoldsDisposable(s: Script) {
    s.capture.Returns? && s.capture.value.Some? && s.capture.value.value.disposable
  }

  /** Execute is called at most once, on content that was reserved, then finalized and authorized. */
  ghost predicate ExecutesOnlyReserved(s: Script, log: seq<Effect>) {
    && Times(log, IsExecute) <= 1
    && forall i :: 0 <= i < |log| && log[i].ExecuteCall? ==>
         && s.begin.Returns? && s.begin.value.contentDigest == Some(Sha256(log[i].content))
         && s.begin.value.byteLength == |log[i].content|
         && |log[i].content| <= s.route.maximumBytes
         && 2 <= i && log[i - 1] == AuthorizeCall
         && log[i - 2] == FinalizeCall(s.begin.value.receipt, BodyDigest(Sha256(log[i].content), |log[i].content|))
         && s.finalize.Returns? && FinalizeAccepted(s, s.finalize.value, s.begin.value.expiresAt)
         && s.authorize == Returns(true)
  }

  /** A disposable capture that was returned is disposed exactly once; nothing else is. */
  ghost predicate DisposesOnce(s: Script, log: seq<Effect>) {
    Times(log, IsDispose) == if CaptureCall in log && HoldsDisposable(s) then 1 else 0
  }

  /**
   Cancel is sent exactly when a receipt was received and its finalization was not seen, once, and never before the
   disposal.
   */
  ghost predicate CancelsExactly(s: Script, log: seq<Effect>) {
    && Times(log, IsCancel)
       == (if && BeginCall in log && s.begin.Returns? && !s.begin.value.leaks && IsOpaque(s.begin.value.receipt)
              && AuthorizeCall !in log
           then 1 else 0)
    && (AuthorizeCall in log ==>
          s.begin.Returns? && s.finalize.Returns? && FinalizeAccepted(s, s.finalize.value, s.begin.value.expiresAt))
    && forall i :: 0 <= i < |log| && log[i].CancelCall? ==>
         s.begin.Returns? && log[i].receipt == s.begin.value.receipt && DisposeCall !in log[i..]
  }

  function Disposal(held: Held): seq<Effect> {
    if held.captured.Some? && held.captured.value.disposable then [DisposeCall] else []
  }

  function Cancellation(held: Held): seq<Effect> {
    if held.receipt.Some? && !held.finalized then [CancelCall(held.receipt.value)] else []
  }

  /** The finally block. */
  method Release(s: Script, held: Held) returns (released: bool, log: seq<Effect>)
    ensures log == Disposal(held) + Cancellation(held)
    ensures released <==> Disposal(held) == [] || s.dispose.Returns?
  {
    log, released := [], true;
    if held.captured.Some? && held.captured.value.disposable {
      log := log + [DisposeCall];
      released := s.dispose.Returns?;
    }
    if held.receipt.Some? && !held.finalized { log := log + [CancelCall(held.receipt.value)]; }
  }

  function Whole(tried: seq<Effect>, held: Held): seq<Effect> {
    tried + (Disposal(held) + Cancellation(held))
  }

  lemma WholeCounts(tried: seq<Effect>, held: Held)
    requires 1 <= |tried| <= 5
    requires forall i :: 0 <= i < |tried| ==>
      !tried[i].DisposeCall? && !tried[i].CancelCall? && (tried[i].ExecuteCall? <==> i == 4)
    ensures Times(Whole(tried, held), IsExecute) == (if |tried| == 5 then 1 else 0)
    ensures Times(Whole(tried, held), IsDispose) == |Disposal(held)|
    ensures Times(Whole(tried, held), IsCancel) == |Cancellation(held)|
  {
    TimesOfPrefix(tried);
    var disposed := tried + Disposal(held);
    assert Whole(tried, held) == disposed + Cancellation(held);
    if Disposal(held) != [] { AppendCounts(tried, DisposeCall); } else { assert disposed == tried; }
    if Cancellation(held) != [] {
      AppendCounts(disposed, Cancellation(held)[0]);
    } else {
      assert disposed + Cancellation(held) == disposed;
    }
  }

  lemma WholeMembers(tried: seq<Effect>, held: Held, e: Effect)
    ensures e in Whole(tried, held) <==> e in tried || e in Disposal(held) || e in Cancellation(held)
  {
  }

  lemma CancelIsLast(tried: seq<Effect>, held: Held)
    requires forall i :: 0 <= i < |tried| ==> !tried[i].CancelCall?
    ensures
      var all := Whole(tried, held);
      forall i :: 0 <= i < |all| && all[i].CancelCall? ==> Cancellation(held) == [all[i]] && DisposeCall !in all[i..]
  {
    var all := Whole(tried, held);
    forall i | 0 <= i < |all| && all[i].CancelCall? ensures Cancellation(held) == [all[i]] && DisposeCall !in all[i..] {
      assert i == |all| - 1;
      assert all[i..] == [all[i]];
    }
  }

  lemma ExecuteIsTried(tried: seq<Effect>, held: Held, i: nat)
    requires i < |Whole(tried, held)| && Whole(tried, held)[i].ExecuteCall?
    ensures i < |tried| && Whole(tried, held)[i] == tried[i]
  {
    var released := Disposal(held) + Cancellation(held);
    assert forall k :: 0 <= k < |released| ==> !released[k].ExecuteCall?;
    assert forall k :: 0 <= k < |released| ==> Whole(tried, held)[|tried| + k] == released[k];
  }

  lemma RunExecutesOnlyReserved(s: Script, tried: seq<Effect>, held: Held)
    requires Reached(s, tried, held)
    ensures ExecutesOnlyReserved(s, Whole(tried, held))
  {
    var all := Whole(tried, held);
    WholeCounts(tried, held);
    forall i | 0 <= i < |all| && all[i].ExecuteCall?
      ensures i == 4 && |tried| == 5 && all[i] == tried[4] && all[i - 1] == tried[3] && all[i - 2] == tried[2]
    {
      ExecuteIsTried(tried, held, i);
    }
  }

  lemma RunDisposesOnce(s: Script, tried: seq<Effect>, held: Held)
    requires Reached(s, tried, held)
    ensures DisposesOnce(s, Whole(tried, held))
  {
    WholeCounts(tried, held);
    WholeMembers(tried, held, CaptureCall);
    if |tried| >= 2 { assert tried[1] in tried; }
  }

  lemma RunCountsCancels(s: Script, tried: seq<Effect>, held: Held)
    requires Reached(s, tried, held)
    ensures
      var all := Whole(tried, held);
      && BeginCall in all && (AuthorizeCall in all <==> |tried| >= 4)
      && Times(all, IsCancel) == if held.receipt.Some? && |tried| < 4 then 1 else 0
  {
    WholeCounts(tried, held);
    WholeMembers(tried, held, BeginCall);
    WholeMembers(tried, held, AuthorizeCall);
    assert tried[0] in tried;
    if |tried| >= 4 { assert tried[3] in tried; }
  }

  lemma RunCancelsExactly(s: Script, tried: seq<Effect>, held: Held)
    requires Reached(s, tried, held)
    ensures CancelsExactly(s, Whole(tried, held))
  {
    RunCountsCancels(s, tried, held);
    CancelIsLast(tried, held);
  }

  /** The calls of the try block, and no others of their kinds, are in the whole log. */
  lemma CallsInWhole(s: Script, tried: seq<Effect>, held: Held)
    requires Reached(s, tried, held)
    ensures
      var all := Whole(tried, held);
      && BeginCall in all && (CaptureCall in all <==> |tried| >= 2)
      && ((exists e :: e in all && e.FinalizeCall?) <==> |tried| >= 3)
      && (AuthorizeCall in all <==> |tried| >= 4)
      && ((exists e :: e in all && e.ExecuteCall?) <==> |tried| >= 5)
  {
    var all := Whole(tried, held);
    assert forall i :: 0 <= i < |tried| ==> all[i] == tried[i];
    forall e | e in all ensures e in tried || e.DisposeCall? || e.CancelCall? { WholeMembers(tried, held, e); }
  }

  /** What the whole log of an accepted call says. */
  lemma RunExactly(s: Script, tried: seq<Effect>, held: Held)
    requires Accepted(s) && Reached(s, tried, held)
    requires (|tried| >= 2 <==> ReachesCapture(s)) && (|tried| >= 3 <==> ReachesFinalize(s))
    requires (|tried| >= 4 <==> ReachesAuthorize(s)) && (|tried| >= 5 <==> ReachesExecute(s))
    ensures
      var all := Whole(tried, held);
      && all != [] && BeginCall in all && (CaptureCall in all <==> ReachesCapture(s))
      && ((exists e :: e in all && e.FinalizeCall?) <==> ReachesFinalize(s))
      && (AuthorizeCall in all <==> ReachesAuthorize(s))
      && ((exists e :: e in all && e.ExecuteCall?) <==> ReachesExecute(s))
      && ExecutesOnlyReserved(s, all) && DisposesOnce(s, all) && CancelsExactly(s, all)
      && (Times(all, IsExecute) == 1 <==> ReachesExecute(s))
    ensures ReachesExecute(s) ==> Disposal(held) != []
  {
    WholeCounts(tried, held);
    CallsInWhole(s, tried, held);
    RunExecutesOnlyReserved(s, tried, held);
    RunDisposesOnce(s, tried, held);
    RunCancelsExactly(s, tried, held);
  }

  /**
   `run`, for every script: nothing happens unless the call is acceptable and its owner current; otherwise what is
   executed was reserved, and whatever was acquired is released.
   */
  method Run(s: Script) returns (ok: bool, log: seq<Effect>)
    ensures log == [] <==> !Accepted(s)
    ensures BeginCall in log <==> Accepted(s)
    ensures CaptureCall in log <==> ReachesCapture(s)
    ensures (exists e :: e in log && e.FinalizeCall?) <==> ReachesFinalize(s)
    ensures AuthorizeCall in log <==> ReachesAuthorize(s)
    ensures (exists e :: e in log && e.ExecuteCall?) <==> ReachesExecute(s)
    ensures ExecutesOnlyReserved(s, log)
    ensures DisposesOnce(s, log)
    ensures CancelsExactly(s, log)
    ensures ok <==> ReachesExecute(s) && s.execute.Returns? && s.dispose.Returns?
    ensures ok <==> Times(log, IsExecute) == 1 && s.execute.Returns? && s.dispose.Returns?
  {
    if !s.owned(0) { return false, []; }
    if !IsOpaque(s.arrivalToken) || !s.classified { return false, []; }
    if !ValidLimits(s.route) || s.requestId.None? { return false, []; }
    var held, released, releases;
    ok, log, held := Attempt(s);
    released, releases := Release(s, held);
    RunExactly(s, log, held);
    ok := ok && released;
    log := log + releases;
  }

  lemma AppendCounts(log: seq<Effect>, e: Effect)
    ensures Times(log + [e], IsExecute) == Times(log, IsExecute) + if e.ExecuteCall? then 1 else 0
    ensures Times(log + [e], IsDispose) == Times(log, IsDispose) + if e.DisposeCall? then 1 else 0
    ensures Times(log + [e], IsCancel) == Times(log, IsCancel) + if e.CancelCall? then 1 else 0
  {
    TimesAppends(log, e, IsExecute);
    TimesAppends(log, e, IsDispose);
    TimesAppends(log, e, IsCancel);
  }

  lemma {:induction false} TimesOfPrefix(log: seq<Effect>)
    requires |log| <= 5
    requires forall i :: 0 <= i < |log| ==>
      !log[i].DisposeCall? && !log[i].CancelCall? && (log[i].ExecuteCall? <==> i == 4)
    ensures Times(log, IsDispose) == 0 && Times(log, IsCancel) == 0
    ensures Times(log, IsExecute) == if |log| == 5 then 1 else 0
  {
    if log != [] { TimesOfPrefix(log[..|log| - 1]); }
  }
}
