/** An account's session requests: whom they go to, how they end, and the server's own sign-in
  * when no phone answers in time.
  *
  * `startSession` and `appLogin` wait on the network between recording a request and writing
  * its outcome, and any other handler may run meanwhile: each is two steps here. Every other
  * handler is one step. The account's record is an input of each step, as loaded then, so
  * whatever else happens to the record is covered. */
module SessionRequests {
  import opened Options
  import opened Lists
  import opened Numbers
  import opened AccountRecords

  const REQUEST_TIMEOUT_SECS := 120
  const REQUEST_KEEP_SECS := 600

  /** The reasons for failing, of requests and of asking phones. */
  datatype Message =
    | PhoneUnreachable | PhoneUnavailable | PhoneSessionInvalid | AccountMismatch | ServerLoginFailed
    | CredentialsRejected | ForwardingMissing | GmailWasRevoked
    | Told(text: string)

  datatype Status = Pending | Success | Error

  datatype Request = Request(
    id: string,
    responseToken: string,
    status: Status,
    cookies: Option<string>,
    csrfToken: Option<string>,
    error: Option<Message>,
    createdAt: int,
    expiresAt: int,
    vaultDueAt: Option<int>,
    vaultStarted: bool,
    phoneAsked: bool,
    phoneError: Option<Message>,
    source: Option<string>,
    phones: seq<string>)
  {
    predicate IsPending(now: int) {
      status.Pending? && now < expiresAt
    }

    function Succeed(header: string, from: string, token: Option<string>): Request {
      this.(status := Success, cookies := Some(header), csrfToken := token, error := None, source := Some(from))
    }

    function Fail(message: Message): Request {
      this.(status := Error, error := Some(message))
    }

    /** A server takeover is still to come. */
    predicate TakeoverDue() {
      status.Pending? && !vaultStarted && vaultDueAt.Some?
    }
  }

  function NewRequest(id: string, token: string, now: int, phones: seq<string>): Request {
    Request(id, token, Pending, None, None, None, now, now + REQUEST_TIMEOUT_SECS, None, false, false,
            None, None, phones)
  }

  // ---- what the network answers ----

  /** The engine's word on the cached session. */
  datatype CacheCheck = Works | NoLongerWorks | CannotTell

  datatype PhoneReply = Logged | NoInstall | CallFailed

  /** `urlSet`: the edge knows its own address. `phones`: what asking each install gave.
    * `engineTakes`: the engine answers a sign-in request with 202. */
  datatype Network = Network(urlSet: bool, phones: string -> PhoneReply, engineTakes: bool)

  datatype Outcome =
    | SignedIn(cookies: string, sealedSession: string, csrfToken: Option<string>)
    | InvalidCredentials
    | ForwardingRequired
    | GmailRevoked(sealedVault: string)
    | VaultUnusable
    | LoginFailed

  /** Credentials that came with an answer and were sealed for keeping. */
  datatype Credentials = Credentials(sealed: string, gmail: bool)

  /** A phone's answer once its token matched, with the engine's check of the cookies. */
  datatype PhoneAnswer =
    | Refusal(text: string)
    | InvalidCookies
    | EngineUnreachable
    | OwnSession(header: string, sealed: Option<string>, credentials: Option<Credentials>)
    | OtherStudent
    | ExpiredSession

  // ---- asking and signing in ----

  /** The request after its phones were asked, and why none could be. */
  function Asked(request: Request, network: Network): (Request, Option<Message>) {
    if request.phones == [] then (request, Some(PhoneUnreachable))
    else if !network.urlSet then (request, Some(PhoneUnavailable))
    else
      var logged := exists d <- request.phones :: network.phones(d).Logged?;
      var asked := request.(phoneAsked := request.phoneAsked || logged);
      if asked.phoneAsked then (asked, None)
      else if exists d <- request.phones :: network.phones(d).CallFailed? then (asked, Some(PhoneUnavailable))
      else (asked, Some(PhoneUnreachable))
  }

  /** A server sign-in needs usable credentials and an engine that accepts them. */
  predicate Starts(doc: Account, at: int, engineTakes: bool) {
    doc.UsableVault(at).Some? && engineTakes
  }

  function StartedLogin(doc: Account, request: Request, at: int, engineTakes: bool): Request {
    if Starts(doc, at, engineTakes) then request.(vaultStarted := true) else request
  }

  datatype Plan = VaultFirst | PhoneFirst(waitSecs: int) | PhoneOnly

  function Planned(settings: Settings, hasVault: bool): Plan {
    if !hasVault then PhoneOnly
    else if settings.alwaysUseVault then VaultFirst
    else PhoneFirst(settings.phoneWaitSecs)
  }

  function AskedOrFailed(request: Request, network: Network): Request {
    var (asked, failure) := Asked(request, network);
    if failure.Some? then asked.Fail(failure.value) else asked
  }

  /** `begin`, by plan: the vault and then phones, phones and then the vault, or phones alone. */
  function Begun(doc: Account, request: Request, at: int, network: Network): Request {
    match Planned(doc.settings, doc.UsableVault(at).Some?)
    case VaultFirst =>
      if Starts(doc, at, network.engineTakes) then StartedLogin(doc, request, at, network.engineTakes)
      else AskedOrFailed(request, network)
    case PhoneFirst(waitSecs) =>
      var (asked, failure) := Asked(request, network);
      if failure.None? then asked.(vaultDueAt := Some(at + waitSecs))
      else
        var blamed := asked.(phoneError := failure);
        if Starts(doc, at, network.engineTakes) then StartedLogin(doc, blamed, at, network.engineTakes)
        else blamed.Fail(failure.value)
    case PhoneOnly => AskedOrFailed(request, network)
  }

  /** The message a failed sign-in ends a request with, if it names one itself. */
  function Reason(outcome: Outcome): Option<Message>
    requires !outcome.SignedIn?
  {
    match outcome
    case InvalidCredentials => Some(CredentialsRejected)
    case ForwardingRequired => Some(ForwardingMissing)
    case GmailRevoked(_) => Some(GmailWasRevoked)
    case VaultUnusable => None
    case LoginFailed => None
  }

  function OrElse(a: Option<Message>, b: Message): Message {
    if a.Some? then a.value else b
  }

  /** A request once the engine is done signing in for it. */
  function AfterLogin(request: Request, outcome: Outcome, network: Network, at: int): Request {
    if !request.IsPending(at) then request
    else if outcome.SignedIn? then request.Succeed(outcome.cookies, "server", outcome.csrfToken)
    else if !request.phoneAsked then
      var (asked, failure) := Asked(request, network);
      if failure.Some? then asked.Fail(OrElse(Reason(outcome), failure.value)) else asked
    else if request.phoneError.Some? then request.Fail(OrElse(Reason(outcome), request.phoneError.value))
    else request
  }

  /** The record once the engine is done. */
  function DocAfterLogin(doc: Account, outcome: Outcome, at: int): Account {
    match outcome
    case SignedIn(_, sealed, _) => doc.SavedSession(sealed, at, "server")
    case InvalidCredentials => doc.RejectedCredentials(at)
    case ForwardingRequired => doc
    case GmailRevoked(sealed) => doc.DroppedGmail(sealed)
    case VaultUnusable => doc.ClearedVault()
    case LoginFailed => doc
  }

  /** A request once a phone's answer was checked. */
  function AfterAnswer(request: Request, answer: PhoneAnswer, at: int): Request {
    if !request.IsPending(at) then request
    else
      match answer
      case Refusal(text) => request.Fail(Told(text))
      case InvalidCookies => request
      case EngineUnreachable => request
      case OwnSession(header, _, _) => request.Succeed(header, "phone", None)
      case OtherStudent => request.Fail(AccountMismatch)
      case ExpiredSession => request.Fail(PhoneSessionInvalid)
  }

  /** The record once a phone answered: a session it made is cached even for a request no longer
    * pending, and credentials it sent along are kept. */
  function DocAfterAnswer(doc: Account, answer: PhoneAnswer, at: int): Account {
    match answer
    case OwnSession(_, sealed, credentials) =>
      var cached := if sealed.Some? then doc.SavedSession(sealed.value, at, "phone") else doc;
      if credentials.None? then cached
      else cached.SavedVault(credentials.value.sealed, at, credentials.value.gmail)
    case _ => doc
  }

  /** A takeover is due and the request still waits for one. */
  predicate TakesOver(request: Request, at: int) {
    request.vaultDueAt.Some? && at >= request.vaultDueAt.value && !request.vaultStarted && request.IsPending(at)
  }

  /** A request the alarm keeps. */
  function AfterAlarm(doc: Account, request: Request, at: int, engineTakes: bool): Request {
    if !TakesOver(request, at) then request
    else if Starts(doc, at, engineTakes) then StartedLogin(doc, request, at, engineTakes)
    else request.(vaultDueAt := None)
  }

  /** Ten minutes after it was made a request is dropped. */
  predicate IsOld(request: Request, at: int) {
    at >= request.createdAt + REQUEST_KEEP_SECS
  }

  /** The alarm starts a sign-in for a request. */
  predicate StartsAtAlarm(doc: Account, request: Request, at: int, engineTakes: bool) {
    !IsOld(request, at) && TakesOver(request, at) && Starts(doc, at, engineTakes)
  }

  // ---- the object's state ----

  /** A handler waiting between recording its request and writing the outcome. */
  datatype Waiting = Waiting(request: Request, doc: Account, at: int)

  /** `made`: every request id so far. `accepted`: the sign-ins the engine took, by request.
    * `setAt`: when the alarm was last chosen. */
  datatype State = State(
    requests: map<string, Request>,
    pendingId: Option<string>,
    waiting: map<string, Waiting>,
    alarm: Option<int>,
    setAt: int,
    made: set<string>,
    accepted: multiset<string>,
    clock: int)

  datatype Step =
    | BeginStart(doc: Account, keyHash: string, id: string, token: string, at: int, check: CacheCheck, now: int)
    | FinishStart(doc: Account, id: string, network: Network, now: int)
    | BeginLogin(doc: Account, id: string, token: string, at: int, check: CacheCheck, now: int)
    | FinishLogin(id: string, engineTakes: bool, now: int)
    | LoginDone(id: string, outcome: Outcome, network: Network, now: int)
    | Answer(id: string, answer: PhoneAnswer, now: int)
    | Alarm(doc: Account, takes: set<string>, now: int)

  predicate CacheServes(doc: Account, at: int, check: CacheCheck) {
    doc.CachedSession(at).Some? && check.Works?
  }

  /** The record after the engine's check, without a cached session found to be over. */
  function CheckedDoc(doc: Account, at: int, check: CacheCheck): Account {
    if doc.CachedSession(at).Some? && check.NoLongerWorks? then doc.ClearedSession() else doc
  }

  /** The request a session call would join. */
  predicate Joins(s: State, at: int) {
    s.pendingId.Some? && s.pendingId.value in s.requests && s.requests[s.pendingId.value].IsPending(at)
  }

  predicate StartRecords(s: State, doc: Account, keyHash: string, at: int, check: CacheCheck) {
    && Has(doc.keys, KeyHash, keyHash)
    && Allowed(Window(doc.windowStart, doc.windowHits), at)
    && !CacheServes(doc, at, check)
    && !Joins(s, at)
  }

  predicate LoginRecords(s: State, doc: Account, at: int, check: CacheCheck) {
    doc.UsableVault(at).Some? && !CacheServes(doc, at, check) && !Joins(s, at)
  }

  /** A new request, stored and made the one others join. */
  function Recorded(s: State, request: Request, doc: Account, at: int): State {
    s.(requests := s.requests[request.id := request], pendingId := Some(request.id),
       waiting := s.waiting[request.id := Waiting(request, doc, at)], made := s.made + {request.id})
  }

  // ---- the alarm time ----

  /** A time a request needs the alarm at: its takeover, or when it is dropped. */
  predicate DueFor(request: Request, time: int) {
    (request.TakeoverDue() && request.vaultDueAt.value == time) || request.createdAt + REQUEST_KEEP_SECS == time
  }

  /** A time the alarm should not be later than. */
  predicate IsDue(requests: map<string, Request>, doc: Account, time: int) {
    || (exists id <- requests :: DueFor(requests[id], time))
    || (doc.settings.vaultTtlSecs.Some? && doc.vaultSavedAt.Some? && doc.sealedVault.Some?
        && doc.vaultSavedAt.value + doc.settings.vaultTtlSecs.value == time)
  }

  /** The alarm `reschedule` sets: the earliest due time, or the next second if that is past. */
  ghost predicate IsScheduled(alarm: Option<int>, requests: map<string, Request>, doc: Account, now: int) {
    match alarm
    case None => forall time :: !IsDue(requests, doc, time)
    case Some(a) =>
      exists first :: IsDue(requests, doc, first) && a == Max(first, now + 1)
                      && forall time :: IsDue(requests, doc, time) ==> first <= time
  }

  // ---- steps ----

  predicate Enabled(s: State, step: Step) {
    && s.clock <= step.now
    && match step
       case BeginStart(_, _, id, _, at, _, now) => id !in s.made && at <= now
       case BeginLogin(_, id, _, at, _, now) => id !in s.made && at <= now
       case FinishStart(_, id, _, _) => id in s.waiting
       case FinishLogin(id, _, _) => id in s.waiting
       case LoginDone(_, _, _, _) => true
       case Answer(_, _, _) => true
       case Alarm(_, _, now) => s.alarm.Some? && s.alarm.value <= now
  }

  function FinishedStart(s: State, id: string, network: Network): State
    requires id in s.waiting
  {
    var w := s.waiting[id];
    var begun := Begun(w.doc, w.request, w.at, network);
    s.(requests := if id in s.requests && s.requests[id].IsPending(w.at) then s.requests[id := begun] else s.requests,
       waiting := s.waiting - {id},
       accepted := if begun.vaultStarted then s.accepted + multiset{id} else s.accepted)
  }

  /** `appLogin` re-reads before it writes a started sign-in, but not before it writes a failure. */
  function FinishedLogin(s: State, id: string, engineTakes: bool): State
    requires id in s.waiting
  {
    var w := s.waiting[id];
    if Starts(w.doc, w.at, engineTakes) then
      s.(requests := if id in s.requests && s.requests[id].IsPending(w.at)
                     then s.requests[id := StartedLogin(w.doc, w.request, w.at, engineTakes)] else s.requests,
         waiting := s.waiting - {id},
         accepted := s.accepted + multiset{id})
    else
      s.(requests := s.requests[id := w.request.Fail(ServerLoginFailed)], waiting := s.waiting - {id})
  }

  function Swept(s: State, doc: Account, takes: set<string>, at: int): State {
    var started := set id | id in s.requests && StartsAtAlarm(doc, s.requests[id], at, id in takes);
    s.(requests := map id | id in s.requests && !IsOld(s.requests[id], at) ::
                     AfterAlarm(doc, s.requests[id], at, id in takes),
       accepted := s.accepted + multiset(started))
  }

  /** What a step makes of the state, but for the clock and the alarm. */
  function Done(s: State, step: Step): State
    requires Enabled(s, step)
  {
    match step
    case BeginStart(doc, keyHash, id, token, at, check, _) =>
      if StartRecords(s, doc, keyHash, at, check)
      then Recorded(s, NewRequest(id, token, at, doc.PhonesForKey(keyHash)), doc, at) else s
    case FinishStart(_, id, network, _) => FinishedStart(s, id, network)
    case BeginLogin(doc, id, token, at, check, _) =>
      if LoginRecords(s, doc, at, check) then Recorded(s, NewRequest(id, token, at, []), doc, at) else s
    case FinishLogin(id, engineTakes, _) => FinishedLogin(s, id, engineTakes)
    case LoginDone(id, outcome, network, now) =>
      if id !in s.requests then s
      else s.(requests := s.requests[id := AfterLogin(s.requests[id], outcome, network, now)])
    case Answer(id, answer, now) =>
      if id in s.requests then s.(requests := s.requests[id := AfterAnswer(s.requests[id], answer, now)]) else s
    case Alarm(doc, takes, now) => Swept(s, doc, takes, now)
  }

  predicate Reschedules(step: Step) {
    step.FinishStart? || step.Alarm?
  }

  /** The record an alarm leaves: a vault past its lifetime is cleared. */
  function AlarmDoc(doc: Account, at: int): Account {
    if doc.sealedVault.Some? && doc.UsableVault(at).None? then doc.ClearedVault() else doc
  }

  /** The record the alarm time is chosen by. */
  function ScheduledDoc(step: Step): Account
    requires Reschedules(step)
  {
    if step.Alarm? then AlarmDoc(step.doc, step.now) else step.doc
  }

  ghost predicate Next(s: State, step: Step, t: State) {
    && Enabled(s, step)
    && var done := Done(s, step);
       if Reschedules(step) then
         && t == done.(clock := step.now, setAt := step.now, alarm := t.alarm)
         && IsScheduled(t.alarm, t.requests, ScheduledDoc(step), step.now)
       else t == done.(clock := step.now)
  }

  const INITIAL := State(map[], None, map[], None, 0, {}, multiset{}, 0)

  ghost predicate StepAt(states: seq<State>, steps: seq<Step>, i: nat) {
    i < |steps| && i + 1 < |states| && Next(states[i], steps[i], states[i + 1])
  }

  /** A run of the object from its creation. */
  ghost predicate IsRun(states: seq<State>, steps: seq<Step>) {
    && |states| == |steps| + 1 && states[0] == INITIAL
    && forall i: nat :: i < |steps| ==> StepAt(states, steps, i)
  }
}
