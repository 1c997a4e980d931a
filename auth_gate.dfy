/** The sign-in gate of `SkyFarmAuth.requireAuth`: a readiness poll that
    ends in exactly one terminal state, an overlay that follows the
    auth-state notifications, the sign-in form's validation and messages,
    and the two guards that bound repeated writes (a once-per-document-id
    login stamp and a single heartbeat interval).

    The clock, the readiness of the SDK, the notified user and the outcome
    of a sign-in are parameters; Firestore writes are recorded as the
    document ids they were attempted for. */
module AuthGate {
  import opened Wrappers
  import opened JsStrings
  import opened Firebase
  import opened DocIds

  const DefaultMaxWaitMs: int := 10000
  const NotReadyMessage: string := "Firebase not ready on this page."
  const MissingFieldsMessage: string := "Enter email and password."
  const SigningInMessage: string := "Signing in…"
  const SignedInMessage: string := "Signed in."
  const SignInFailedMessage: string := "Sign in failed."
  const StampKeyPrefix: string := "sf_last_login_stamped_"

  /** `Number(opts.maxWaitMs || 10000)`, the option being absent or a number. */
  function MaxWaitMs(option: Option<int>): (ms: int)
    ensures ms != 0
    ensures option == None || option == Some(0) ==> ms == DefaultMaxWaitMs
    ensures option.Some? && option.value != 0 ==> ms == option.value
  {
    match option
    case Some(v) => if v != 0 then v else DefaultMaxWaitMs
    case None => DefaultMaxWaitMs
  }

  // ---------------------------------------------------------------------
  // The readiness poll

  /** Waiting for the SDK since `start`; gave up (terminal); subscribed to
      auth-state notifications with the sign-in handler installed
      (terminal); or stopped by an exception of `firebase.auth()` or
      `firebase.firestore()` after the interval was cleared, with neither
      handler installed (terminal). */
  datatype GateState = Waiting(start: int) | Unavailable | Listening | Broken

  /** One firing of the 150 ms interval: the clock, the global `firebase`
      binding as `firebaseReady()` reads it, and whether `firebase.auth()`
      and `firebase.firestore()` both return. */
  datatype Poll = Poll(now: int, sdk: SdkGlobal, services: bool)

  predicate Ready(p: Poll) {
    FirebaseReady(p.sdk)
  }

  /** A poll decides the gate when the SDK is ready or the wait is over. */
  predicate Decisive(start: int, maxWait: int, p: Poll) {
    Ready(p) || p.now - start > maxWait
  }

  /** The terminal state a decisive poll leads to. */
  function Settled(p: Poll): GateState {
    if !Ready(p) then Unavailable else if p.services then Listening else Broken
  }

  /** The state after one tick of the interval. Readiness is looked at
      first; the deadline only when the SDK is not ready. A terminal state
      has cleared the interval, so no tick reaches it. */
  function PollStep(s: GateState, maxWait: int, p: Poll): (r: GateState)
    ensures !s.Waiting? ==> r == s
    ensures s.Waiting? && Ready(p) ==> r == (if p.services then Listening else Broken)
    ensures s.Waiting? ==> (r == Unavailable <==> !Ready(p) && p.now - s.start > maxWait)
    ensures r.Waiting? <==> s.Waiting? && !Decisive(s.start, maxWait, p)
    ensures r.Waiting? ==> r == s
    ensures !r.Waiting? ==> r == s || r == Settled(p)
  {
    match s
    case Waiting(start) =>
      if !Ready(p) then
        if p.now - start > maxWait then Unavailable else s
      else if p.services then Listening
      else Broken
    case Unavailable => s
    case Listening => s
    case Broken => s
  }

  /** The state after a sequence of ticks. */
  function PollRun(s: GateState, maxWait: int, polls: seq<Poll>): GateState
    decreases |polls|
  {
    if polls == [] then s else PollRun(PollStep(s, maxWait, polls[0]), maxWait, polls[1..])
  }

  /** The outcomes the ticks produce: each tick that leaves Waiting
      contributes the terminal state it enters. */
  function PollOutcomes(s: GateState, maxWait: int, polls: seq<Poll>): seq<GateState>
    decreases |polls|
  {
    if polls == [] then []
    else
      var t := PollStep(s, maxWait, polls[0]);
      (if s.Waiting? && !t.Waiting? then [t] else []) + PollOutcomes(t, maxWait, polls[1..])
  }

  /** Once terminal, later ticks change nothing and produce nothing. */
  lemma {:induction false} TerminalIsFinal(s: GateState, maxWait: int, polls: seq<Poll>)
    requires !s.Waiting?
    ensures PollRun(s, maxWait, polls) == s
    ensures PollOutcomes(s, maxWait, polls) == []
    decreases |polls|
  {
    if polls != [] {
      TerminalIsFinal(PollStep(s, maxWait, polls[0]), maxWait, polls[1..]);
    }
  }

  /** At most one outcome ever happens; exactly one when the run started
      waiting and ended terminal, and it is the final state. */
  lemma {:induction false} AtMostOneOutcome(s: GateState, maxWait: int, polls: seq<Poll>)
    ensures |PollOutcomes(s, maxWait, polls)| <= 1
    ensures |PollOutcomes(s, maxWait, polls)| == 1 <==> s.Waiting? && !PollRun(s, maxWait, polls).Waiting?
    ensures |PollOutcomes(s, maxWait, polls)| == 1 ==> PollOutcomes(s, maxWait, polls)[0] == PollRun(s, maxWait, polls)
    decreases |polls|
  {
    if polls != [] {
      var t := PollStep(s, maxWait, polls[0]);
      if s.Waiting? && !t.Waiting? {
        TerminalIsFinal(t, maxWait, polls[1..]);
      } else {
        AtMostOneOutcome(t, maxWait, polls[1..]);
      }
    }
  }

  /** The index of the first decisive poll, if any. */
  function FirstDecisive(start: int, maxWait: int, polls: seq<Poll>): (k: Option<nat>)
    ensures k.Some? ==> k.value < |polls| && Decisive(start, maxWait, polls[k.value])
    ensures k.Some? ==> forall j :: 0 <= j < k.value ==> !Decisive(start, maxWait, polls[j])
    ensures k.None? ==> forall j :: 0 <= j < |polls| ==> !Decisive(start, maxWait, polls[j])
    decreases |polls|
  {
    if polls == [] then None
    else if Decisive(start, maxWait, polls[0]) then Some(0)
    else match FirstDecisive(start, maxWait, polls[1..])
      case None => None
      case Some(k) => Some(k + 1)
  }

  /** The first decisive tick alone settles the gate: Listening when the SDK
      was ready at that tick and its services loaded, Broken when it was
      ready and they did not, Unavailable when it was not ready; without
      such a tick the gate is still waiting. */
  lemma {:induction false} FirstDecisiveSettles(start: int, maxWait: int, polls: seq<Poll>)
    ensures PollRun(Waiting(start), maxWait, polls) ==
      match FirstDecisive(start, maxWait, polls)
      case None => Waiting(start)
      case Some(k) => Settled(polls[k])
    decreases |polls|
  {
    if polls != [] {
      var t := PollStep(Waiting(start), maxWait, polls[0]);
      if Decisive(start, maxWait, polls[0]) {
        TerminalIsFinal(t, maxWait, polls[1..]);
      } else {
        FirstDecisiveSettles(start, maxWait, polls[1..]);
      }
    }
  }

  /** With a clock that never goes back, an SDK that is ready at some tick
      within `maxWait` of the start means the gate never gives up: it ends
      subscribed, or broken by a service that failed to load; subscribed
      when the services load at every tick. */
  lemma ReadyInTimeListens(start: int, maxWait: int, polls: seq<Poll>, i: nat)
    requires forall a, b :: 0 <= a < b < |polls| ==> polls[a].now <= polls[b].now
    requires i < |polls| && Ready(polls[i]) && polls[i].now - start <= maxWait
    ensures PollRun(Waiting(start), maxWait, polls) in {Listening, Broken}
    ensures (forall j :: 0 <= j < |polls| ==> polls[j].services) ==> PollRun(Waiting(start), maxWait, polls) == Listening
  {
    FirstDecisiveSettles(start, maxWait, polls);
    var k := FirstDecisive(start, maxWait, polls);
    assert k.Some? && k.value <= i;
    if k.value < i {
      assert polls[k.value].now <= polls[i].now;
    }
  }

  /** An SDK that is never ready leads to Unavailable as soon as a tick is
      strictly past the deadline. */
  lemma NeverReadyTimesOut(start: int, maxWait: int, polls: seq<Poll>, i: nat)
    requires forall j :: 0 <= j < |polls| ==> !Ready(polls[j])
    requires i < |polls| && polls[i].now - start > maxWait
    ensures PollRun(Waiting(start), maxWait, polls) == Unavailable
  {
    FirstDecisiveSettles(start, maxWait, polls);
  }

  // ---------------------------------------------------------------------
  // Auth-state notifications, the login stamp and the heartbeat

  /** The overlay is shown exactly when a notification carries no user. */
  function OverlayAfterNotification(u: Option<User>): (visible: bool)
    ensures visible <==> u == None
  {
    match u
    case None => true
    case Some(_) => false
  }

  /** The `sessionStorage` key that marks a document id as stamped. */
  function StampKey(docId: string): string {
    StampKeyPrefix + docId
  }

  /** Different document ids have different markers. */
  lemma StampKeyInjective(a: string, b: string)
    ensures StampKey(a) == StampKey(b) ==> a == b
  {
    if StampKey(a) == StampKey(b) {
      assert a == StampKey(a)[|StampKeyPrefix|..];
      assert b == StampKey(b)[|StampKeyPrefix|..];
    }
  }

  /** A session store after `stampLastLogin`, and the document id of the
      write it attempted, if any. */
  datatype Stamp = Stamp(keys: set<string>, write: Option<string>)

  /** `stampLastLogin`: nothing without an e-mail; otherwise the marker of the
      document id is set and a write attempted, unless the marker was
      already there. The write's outcome has no effect: the marker is set
      before it is attempted, and its errors are swallowed. */
  function StampOutcome(keys: set<string>, email: Option<string>): (r: Stamp)
    ensures !HasEmail(email) ==> r == Stamp(keys, None)
    ensures HasEmail(email) ==>
      var d := SafeDocIdFromEmail(email);
      r.keys == keys + {StampKey(d)} && (r.write.Some? <==> StampKey(d) !in keys)
    ensures r.write.Some? ==> r.write.value == SafeDocIdFromEmail(email)
  {
    if !HasEmail(email) then Stamp(keys, None)
    else
      var docId := SafeDocIdFromEmail(email);
      var key := StampKey(docId);
      if key in keys then Stamp(keys, None)
      else Stamp(keys + {key}, Some(docId))
  }

  /** Stamping the same address again in the same store writes nothing. */
  lemma StampTwiceWritesOnce(keys: set<string>, email: Option<string>)
    ensures StampOutcome(StampOutcome(keys, email).keys, email).write == None
  {
  }

  /** The session store and the writes after stamping a sequence of
      notified users' addresses. */
  function StampAll(keys: set<string>, emails: seq<Option<string>>): (set<string>, seq<string>)
    decreases |emails|
  {
    if emails == [] then (keys, [])
    else
      var first := StampOutcome(keys, emails[0]);
      var rest := StampAll(first.keys, emails[1..]);
      (rest.0, ToSeq(first.write) + rest.1)
  }

  /** However many notifications arrive, every document id is written at
      most once, only if its marker was not already in the store, and its
      marker is in the store afterwards. */
  lemma {:induction false} StampAllOncePerDocId(keys: set<string>, emails: seq<Option<string>>)
    ensures var (after, writes) := StampAll(keys, emails);
      keys <= after
      && (forall i, j :: 0 <= i < j < |writes| ==> writes[i] != writes[j])
      && (forall i :: 0 <= i < |writes| ==> StampKey(writes[i]) !in keys && StampKey(writes[i]) in after)
    decreases |emails|
  {
    if emails != [] {
      var first := StampOutcome(keys, emails[0]);
      StampAllOncePerDocId(first.keys, emails[1..]);
      var rest := StampAll(first.keys, emails[1..]);
      var writes := ToSeq(first.write) + rest.1;
      if first.write.Some? {
        forall i | 0 < i < |writes| ensures writes[0] != writes[i] {
          assert writes[i] == rest.1[i - 1];
          assert StampKey(writes[0]) in first.keys;
        }
      }
    }
  }

  /** The process-wide heartbeat flag and the intervals registered. */
  datatype Heartbeat = Heartbeat(started: bool, intervals: nat)

  /** `startHeartbeat`: registers an interval only when the flag is down,
      and raises it. */
  function HeartbeatStart(h: Heartbeat): (r: Heartbeat)
    ensures r.started
    ensures h.started ==> r == h
    ensures !h.started ==> r.intervals == h.intervals + 1
  {
    if h.started then h else Heartbeat(true, h.intervals + 1)
  }

  /** The heartbeat after `n` calls of `startHeartbeat`. */
  function HeartbeatStarts(h: Heartbeat, n: nat): Heartbeat
    decreases n
  {
    if n == 0 then h else HeartbeatStarts(HeartbeatStart(h), n - 1)
  }

  /** After any number of calls at most one interval is registered, and after
      at least one call exactly one is. */
  lemma {:induction false} HeartbeatSingleton(h: Heartbeat, n: nat)
    requires h.intervals == if h.started then 1 else 0
    ensures HeartbeatStarts(h, n).intervals <= 1
    ensures n > 0 ==> HeartbeatStarts(h, n) == Heartbeat(true, 1)
    decreases n
  {
    if n > 0 {
      HeartbeatSingleton(HeartbeatStart(h), n - 1);
    }
  }

  /** One heartbeat tick: the document id whose `lastSeenAt` it writes; none
      when there is no current user or the user has no e-mail. */
  function HeartbeatWrite(current: Option<User>): (w: Option<string>)
    ensures w.None? <==> current.None? || !HasEmail(current.value.email)
    ensures w.Some? ==> w.value == SafeDocIdFromEmail(current.value.email) && IsDocId(w.value)
  {
    match current
    case None => None
    case Some(u) =>
      if !HasEmail(u.email) then None
      else
        Some(SafeDocIdFromEmail(u.email))
  }

  // ---------------------------------------------------------------------
  // The sign-in form

  datatype Credentials = Credentials(email: string, password: string)

  /** What a click on "Sign in" does: the messages shown in order, whether
      `setPersistence` was requested, the `signInWithEmailAndPassword` call
      made (if any) and whether the overlay is hidden. */
  datatype SubmitOutcome = SubmitOutcome(messages: seq<string>, persist: bool, call: Option<Credentials>, hideOverlay: bool)

  /** The text a rejected sign-in shows: the error's message, or a fixed
      text when it has none. */
  function FailureText(message: string): (t: string)
    ensures t != ""
    ensures message != "" ==> t == message
  {
    if message != "" then message else SignInFailedMessage
  }

  /** `signInBtn.onclick`: the address is trimmed, the password is not; both
      must be non-empty before the service is asked to persist the session,
      and the sign-in is requested only once that has resolved. */
  function SignInOutcome(emailValue: string, passValue: string, result: SignInResult): (o: SubmitOutcome)
    ensures o.persist <==> !AllSpace(emailValue) && passValue != ""
    ensures !o.persist ==> o.messages == [MissingFieldsMessage] && o.call.None? && !o.hideOverlay
    ensures o.persist ==> |o.messages| == 2 && o.messages[0] == SigningInMessage
    ensures o.call.Some? <==> o.persist && !result.PersistenceFailed?
    ensures o.call.Some? ==> o.call.value == Credentials(Trim(emailValue), passValue)
    ensures o.persist && result.Succeeded? ==> o.messages[1] == SignedInMessage
    ensures o.persist && !result.Succeeded? ==> o.messages[1] == FailureText(result.message)
    ensures o.hideOverlay <==> o.persist && result.Succeeded?
  {
    Submit(Trim(emailValue), passValue, result)
  }

  /** The click once the address is trimmed. */
  function Submit(email: string, pass: string, result: SignInResult): SubmitOutcome {
    if email == "" || pass == "" then
      SubmitOutcome([MissingFieldsMessage], false, None, false)
    else
      match result
      case Succeeded => SubmitOutcome([SigningInMessage, SignedInMessage], true, Some(Credentials(email, pass)), true)
      case PersistenceFailed(m) => SubmitOutcome([SigningInMessage, FailureText(m)], true, None, false)
      case SignInFailed(m) => SubmitOutcome([SigningInMessage, FailureText(m)], true, Some(Credentials(email, pass)), false)
  }

  /** The scenario of an empty password: no request at all, and the prompt
      to fill in both fields. */
  lemma EmptyPasswordMakesNoCall(emailValue: string, result: SignInResult)
    ensures SignInOutcome(emailValue, "", result) == SubmitOutcome([MissingFieldsMessage], false, None, false)
  {
  }

  /** A rejected `setPersistence` with both fields filled: the sign-in is
      never requested, and the error's text replaces "Signing in…". */
  lemma PersistenceFailureMakesNoCall(emailValue: string, passValue: string, message: string)
    requires !AllSpace(emailValue) && passValue != ""
    ensures SignInOutcome(emailValue, passValue, PersistenceFailed(message))
      == SubmitOutcome([SigningInMessage, FailureText(message)], true, None, false)
  {
  }

  /** Whitespace around the address is dropped before the call, while the
      password is passed on as typed, surrounding whitespace included. */
  lemma OnlyEmailIsTrimmed(lead: string, email: string, trail: string, password: string, result: SignInResult)
    requires AllSpace(lead) && AllSpace(trail)
    requires email != [] && !IsJsSpace(email[0]) && !IsJsSpace(email[|email| - 1])
    requires password != ""
    ensures var o := SignInOutcome(lead + email + trail, password, result);
      o.persist && o.call == if result.PersistenceFailed? then None else Some(Credentials(email, password))
  {
    var typed := lead + email + trail;
    TrimOfPadded(lead, email, trail);
    assert Trim(typed) == email;
    assert !AllSpace(typed);
  }

  // ---------------------------------------------------------------------
  // The gate

  /** One call of `requireAuth` on one page: the overlay and its message,
      the poll interval, the tab's session store, the page's heartbeat flag,
      and the calls and writes made to the hosted service. */
  class Gate {
    const maxWaitMs: int
    var state: GateState
    var overlayVisible: bool
    var message: string
    var timerActive: bool
    var sessionKeys: set<string>
    var loginWrites: seq<string>
    var heartbeatStarted: bool
    var intervals: nat
    var seenWrites: seq<string>
    var persistRequests: nat
    var signInCalls: seq<Credentials>

    /** The interval runs exactly while waiting; the flag stands for the one
        registered interval; each login write has its marker stored, and no
        document id is written twice. */
    ghost predicate Valid()
      reads this
    {
      timerActive == state.Waiting?
      && intervals == (if heartbeatStarted then 1 else 0)
      && (forall i :: 0 <= i < |loginWrites| ==> StampKey(loginWrites[i]) in sessionKeys)
      && (forall i, j :: 0 <= i < j < |loginWrites| ==> loginWrites[i] != loginWrites[j])
    }

    /** `requireAuth(opts)` at time `now`, in a tab whose session store holds
        `storedKeys` and on a page whose heartbeat flag is
        `heartbeatAlreadyStarted`; the overlay starts hidden and empty. */
    constructor (option: Option<int>, now: int, storedKeys: set<string>, heartbeatAlreadyStarted: bool)
      ensures Valid()
      ensures maxWaitMs == MaxWaitMs(option) && state == Waiting(now) && timerActive
      ensures !overlayVisible && message == ""
      ensures sessionKeys == storedKeys && loginWrites == []
      ensures heartbeatStarted == heartbeatAlreadyStarted && seenWrites == []
      ensures persistRequests == 0 && signInCalls == []
    {
      maxWaitMs := MaxWaitMs(option);
      state := Waiting(now);
      overlayVisible := false;
      message := "";
      timerActive := true;
      sessionKeys := storedKeys;
      loginWrites := [];
      heartbeatStarted := heartbeatAlreadyStarted;
      intervals := if heartbeatAlreadyStarted then 1 else 0;
      seenWrites := [];
      persistRequests := 0;
      signInCalls := [];
    }

    /** A tick of the poll interval. */
    method OnPollTick(p: Poll)
      requires Valid()
      modifies this
      ensures Valid()
      ensures state == PollStep(old(state), maxWaitMs, p)
      ensures if old(state).Waiting? && state == Unavailable
        then message == NotReadyMessage && overlayVisible
        else message == old(message) && overlayVisible == old(overlayVisible)
      ensures sessionKeys == old(sessionKeys) && loginWrites == old(loginWrites)
      ensures heartbeatStarted == old(heartbeatStarted) && intervals == old(intervals)
      ensures seenWrites == old(seenWrites)
      ensures persistRequests == old(persistRequests) && signInCalls == old(signInCalls)
    {
      if !timerActive {
        return;
      }
      if !FirebaseReady(p.sdk) {
        if p.now - state.start > maxWaitMs {
          timerActive := false;
          message := NotReadyMessage;
          overlayVisible := true;
          state := Unavailable;
        }
        return;
      }
      timerActive := false;
      if p.services {
        state := Listening;
      } else {
        state := Broken;
      }
    }

    /** The close button: hides the overlay in every state. */
    method OnCloseClick()
      requires Valid()
      modifies this`overlayVisible
      ensures Valid() && !overlayVisible
    {
      overlayVisible := false;
    }

    /** `stampLastLogin(db, user)`. */
    method StampLastLogin(email: Option<string>)
      requires Valid()
      modifies this`sessionKeys, this`loginWrites
      ensures Valid()
      ensures var r := StampOutcome(old(sessionKeys), email);
        sessionKeys == r.keys && loginWrites == old(loginWrites) + ToSeq(r.write)
    {
      if !HasEmail(email) {
        return;
      }
      var docId := SafeDocIdFromEmail(email);
      var key := StampKey(docId);
      if key in sessionKeys {
        return;
      }
      sessionKeys := sessionKeys + {key};
      loginWrites := loginWrites + [docId];
    }

    /** `startHeartbeat(db)`. */
    method StartHeartbeat()
      requires Valid()
      modifies this`heartbeatStarted, this`intervals
      ensures Valid()
      ensures Heartbeat(heartbeatStarted, intervals) == HeartbeatStart(old(Heartbeat(heartbeatStarted, intervals)))
    {
      if heartbeatStarted {
        return;
      }
      heartbeatStarted := true;
      intervals := intervals + 1;
    }

    /** A notification of `onAuthStateChanged`; before the SDK was ready there
        is no subscription, so nothing happens. With a user the overlay is
        hidden, the login stamped and the heartbeat started, in that order. */
    method OnAuthStateChanged(u: Option<User>)
      requires Valid()
      modifies this
      ensures Valid()
      ensures state == old(state) && message == old(message) && timerActive == old(timerActive)
      ensures seenWrites == old(seenWrites)
      ensures persistRequests == old(persistRequests) && signInCalls == old(signInCalls)
      ensures old(state) != Listening ==>
        overlayVisible == old(overlayVisible) && sessionKeys == old(sessionKeys)
        && loginWrites == old(loginWrites) && heartbeatStarted == old(heartbeatStarted)
        && intervals == old(intervals)
      ensures old(state) == Listening ==> overlayVisible == OverlayAfterNotification(u)
      ensures old(state) == Listening && u.None? ==>
        sessionKeys == old(sessionKeys) && loginWrites == old(loginWrites)
        && heartbeatStarted == old(heartbeatStarted) && intervals == old(intervals)
      ensures old(state) == Listening && u.Some? ==>
        var r := StampOutcome(old(sessionKeys), u.value.email);
        sessionKeys == r.keys && loginWrites == old(loginWrites) + ToSeq(r.write)
        && Heartbeat(heartbeatStarted, intervals) == HeartbeatStart(old(Heartbeat(heartbeatStarted, intervals)))
    {
      if state != Listening {
        return;
      }
      match u
      case Some(user) =>
        overlayVisible := false;
        StampLastLogin(user.email);
        StartHeartbeat();
      case None =>
        overlayVisible := true;
    }

    /** A firing of the heartbeat interval, which exists once the flag is up. */
    method OnHeartbeatTick(current: Option<User>)
      requires Valid()
      modifies this`seenWrites
      ensures Valid()
      ensures seenWrites == old(seenWrites) + if intervals == 1 then ToSeq(HeartbeatWrite(current)) else []
    {
      if intervals == 0 {
        return;
      }
      if current.None? || !HasEmail(current.value.email) {
        return;
      }
      seenWrites := seenWrites + [SafeDocIdFromEmail(current.value.email)];
    }

    /** A click on "Sign in" with the two field values and how the service
        would settle the requests; the handler exists only once the gate is
        listening. The message shown last stays. */
    method OnSignInClick(emailValue: string, passValue: string, result: SignInResult)
      requires Valid()
      modifies this`message, this`overlayVisible, this`persistRequests, this`signInCalls
      ensures Valid()
      ensures old(state) != Listening ==>
        message == old(message) && overlayVisible == old(overlayVisible)
        && persistRequests == old(persistRequests) && signInCalls == old(signInCalls)
      ensures old(state) == Listening ==>
        var o := SignInOutcome(emailValue, passValue, result);
        message == o.messages[|o.messages| - 1]
        && overlayVisible == (old(overlayVisible) && !o.hideOverlay)
        && persistRequests == old(persistRequests) + (if o.persist then 1 else 0)
        && signInCalls == old(signInCalls) + ToSeq(o.call)
    {
      if state != Listening {
        return;
      }
      SubmitTrimmed(Trim(emailValue), passValue, result);
    }

    /** The handler's work once the address is trimmed. */
    method SubmitTrimmed(email: string, pass: string, result: SignInResult)
      requires Valid()
      modifies this`message, this`overlayVisible, this`persistRequests, this`signInCalls
      ensures Valid()
      ensures var o := Submit(email, pass, result);
        message == o.messages[|o.messages| - 1]
        && overlayVisible == (old(overlayVisible) && !o.hideOverlay)
        && persistRequests == old(persistRequests) + (if o.persist then 1 else 0)
        && signInCalls == old(signInCalls) + ToSeq(o.call)
    {
      if email == "" || pass == "" {
        message := MissingFieldsMessage;
        return;
      }
      message := SigningInMessage;
      persistRequests := persistRequests + 1;
      match result
      case PersistenceFailed(m) =>
        message := FailureText(m);
      case Succeeded =>
        signInCalls := signInCalls + [Credentials(email, pass)];
        message := SignedInMessage;
        overlayVisible := false;
      case SignInFailed(m) =>
        signInCalls := signInCalls + [Credentials(email, pass)];
        message := FailureText(m);
    }
  }
}
