/** What the handlers make of one request and of the account's record, said of the request before
  * and after, and where the answers of a whole run come from. */
module SessionOutcomes {
  import opened Options
  import opened Lists
  import opened Numbers
  import opened AccountRecords
  import opened SessionRequests
  import opened SessionRuns

  /** Just made: nobody asked, nothing started. */
  predicate IsUntouched(request: Request) {
    && request.status.Pending? && request.error.None? && !request.phoneAsked && !request.vaultStarted
    && request.vaultDueAt.None? && request.phoneError.None?
  }

  /** A phone of the request logs the event when it is asked. */
  predicate Reaches(request: Request, network: Network) {
    network.urlSet && exists d <- request.phones :: network.phones(d).Logged?
  }

  /** Why none could be asked: a call failed, or there is none there. */
  function WhyUnreached(request: Request, network: Network): Message {
    if request.phones != [] && (!network.urlSet || exists d <- request.phones :: network.phones(d).CallFailed?)
    then PhoneUnavailable else PhoneUnreachable
  }

  // ---- a session call ----

  /** The record a session call saves: the call counted in its minute, the key used, and a
    * cached session the engine says is over gone; nothing else changed. */
  predicate CallSaved(doc: Account, keyHash: string, at: int, check: CacheCheck, after: Account) {
    && Window(after.windowStart, after.windowHits) == Counted(Window(doc.windowStart, doc.windowHits), at)
    && after == doc.(windowStart := after.windowStart, windowHits := after.windowHits, keys := after.keys,
                     sealedSession := after.sealedSession, sessionSavedAt := after.sessionSavedAt,
                     sessionSource := after.sessionSource)
    && |after.keys| == |doc.keys|
    && (Distinct(doc.keys, KeyHash) ==>
          forall i :: 0 <= i < |doc.keys| ==>
            after.keys[i] == if doc.keys[i].hash == keyHash
                                && (doc.keys[i].lastUsedAt.Some? ==> doc.keys[i].lastUsedAt.value + 60 <= at)
                             then doc.keys[i].(lastUsedAt := Some(at)) else doc.keys[i])
    && if doc.CachedSession(at).Some? && check.NoLongerWorks?
       then after.sealedSession.None? && after.sessionSavedAt.None? && after.sessionSource.None?
       else after.sealedSession == doc.sealedSession && after.sessionSavedAt == doc.sessionSavedAt
            && after.sessionSource == doc.sessionSource
  }

  lemma CallsAreSaved(doc: Account, keyHash: string, at: int, check: CacheCheck)
    ensures CallSaved(doc, keyHash, at, check, CheckedDoc(doc.CountedCall(at).UsedKey(keyHash, at), at, check))
  {
    assert doc.CountedCall(at).UsedKey(keyHash, at).CachedSession(at) == doc.CachedSession(at);
  }

  /** What is kept is found until its time is over: a session for a week, credentials for the
    * lifetime chosen, if one was; the alarm then erases them. */
  lemma KeptForItsTime(doc: Account, sealed: string, at: int, gmail: bool, source: string, now: int)
    ensures doc.SavedSession(sealed, at, source).CachedSession(now) ==
              if now < at + 7 * 24 * 3600 then Some(sealed) else None
    ensures var saved, ttl := doc.SavedVault(sealed, at, gmail), doc.settings.vaultTtlSecs;
            && saved.UsableVault(now) == (if ttl.Some? && at + ttl.value <= now then None else Some(sealed))
            && (AlarmDoc(saved, now).sealedVault.None? <==> ttl.Some? && at + ttl.value <= now)
            && (AlarmDoc(saved, now).sealedVault.Some? ==> AlarmDoc(saved, now) == saved)
  {
  }

  /** A key's request goes to the one install that holds the key, if it is still linked. */
  lemma {:induction false} AsksItsInstall(doc: Account, key: Key)
    requires Distinct(doc.keys, KeyHash) && Distinct(doc.phones, PhoneDevice) && key in doc.keys
    ensures doc.PhonesForKey(key.hash) ==
              if exists p <- doc.phones :: p.deviceId == key.deviceId then [key.deviceId] else []
  {
    var i :| 0 <= i < |doc.keys| && doc.keys[i] == key;
    FindAt(doc.keys, KeyHash, i);
    OneInstall(doc.phones, key.deviceId);
  }

  lemma {:induction false} OneInstall(phones: seq<Phone>, deviceId: string)
    requires Distinct(phones, PhoneDevice)
    ensures DevicesOf(phones, deviceId) == if exists p <- phones :: p.deviceId == deviceId then [deviceId] else []
  {
    if phones != [] {
      OneInstall(phones[1..], deviceId);
      assert forall p <- phones[1..] :: p in phones && PhoneDevice(p) != PhoneDevice(phones[0]);
      assert forall p <- phones :: p == phones[0] || p in phones[1..];
    }
  }

  /** A new request waits two minutes for its answer, untouched. */
  lemma NewRequestsWait(id: string, token: string, at: int, phones: seq<string>, now: int)
    ensures var request := NewRequest(id, token, at, phones);
            && IsUntouched(request) && request.phones == phones && request.createdAt == at
            && (request.IsPending(now) <==> now < at + 120)
  {
  }

  // ---- who is asked first ----

  /** How a new request begins. The engine is offered the credentials when there are any and they
    * are always to be used or no phone is reached; otherwise the phones are asked, and where
    * credentials wait their turn it comes after the time chosen. With nobody reached and no
    * sign-in started it fails, saying why the phones were not reached. */
  predicate IsBegun(doc: Account, request: Request, at: int, network: Network, begun: Request) {
    var vault, reached := doc.UsableVault(at).Some?, Reaches(request, network);
    var first := vault && doc.settings.alwaysUseVault && network.engineTakes;
    && begun.vaultStarted == (vault && network.engineTakes && (first || !reached))
    && begun.phoneAsked == (reached && !first)
    && begun.vaultDueAt ==
         (if begun.phoneAsked && vault && !doc.settings.alwaysUseVault
          then Some(at + doc.settings.phoneWaitSecs) else None)
    && begun.phoneError ==
         (if !reached && vault && !doc.settings.alwaysUseVault then Some(WhyUnreached(request, network)) else None)
    && begun.status == (if begun.vaultStarted || begun.phoneAsked then Pending else Error)
    && begun.error == (if begun.status.Error? then Some(WhyUnreached(request, network)) else None)
    && begun == request.(vaultStarted := begun.vaultStarted, phoneAsked := begun.phoneAsked,
                         vaultDueAt := begun.vaultDueAt, phoneError := begun.phoneError, status := begun.status,
                         error := begun.error)
  }

  lemma BeginsAsPlanned(doc: Account, request: Request, at: int, network: Network)
    requires IsUntouched(request)
    ensures IsBegun(doc, request, at, network, Begun(doc, request, at, network))
  {
  }

  /** The end of a session call's wait writes how its request began over the one stored, while
    * that is pending, and touches no other. */
  lemma FinishStartWrites(s: State, step: Step, t: State)
    requires Invariant(s) && Next(s, step, t) && step.FinishStart?
    ensures var w := s.waiting[step.id];
            if step.id in s.requests && s.requests[step.id].IsPending(w.at)
            then step.id in t.requests && t.requests == s.requests[step.id := t.requests[step.id]]
                 && IsBegun(w.doc, w.request, w.at, step.network, t.requests[step.id])
            else t.requests == s.requests
  {
    assert WaitingInvariant(s, step.id);
    BeginsAsPlanned(s.waiting[step.id].doc, s.waiting[step.id].request, s.waiting[step.id].at, step.network);
  }

  /** The end of `appLogin`'s wait: a sign-in the engine took is written over a pending request,
    * a failure over any. */
  lemma FinishLoginWrites(s: State, step: Step, t: State)
    requires Invariant(s) && Next(s, step, t) && step.FinishLogin?
    ensures var w := s.waiting[step.id];
            if w.doc.UsableVault(w.at).None? || !step.engineTakes then
              t.requests == s.requests[step.id := w.request.(status := Error, error := Some(ServerLoginFailed))]
            else if step.id in s.requests && s.requests[step.id].IsPending(w.at) then
              t.requests == s.requests[step.id := w.request.(vaultStarted := true)]
            else t.requests == s.requests
  {
  }

  // ---- the engine's outcome ----

  /** What the engine's outcome makes of a pending request: the session, or, when it has none,
    * nothing while a phone may still answer, another try at the phones, or the end with the
    * engine's reason or else the phones'. */
  predicate LoginSettles(before: Request, outcome: Outcome, network: Network, after: Request) {
    if outcome.SignedIn? then
      after == before.(status := Success, cookies := Some(outcome.cookies), csrfToken := outcome.csrfToken,
                       source := Some("server"), error := None)
    else if before.phoneAsked && before.phoneError.None? then after == before
    else if !before.phoneAsked && Reaches(before, network) then after == before.(phoneAsked := true)
    else
      var unreached := if before.phoneAsked then before.phoneError.value else WhyUnreached(before, network);
      after == before.(status := Error, error := Some(
        if outcome.InvalidCredentials? then CredentialsRejected
        else if outcome.ForwardingRequired? then ForwardingMissing
        else if outcome.GmailRevoked? then GmailWasRevoked
        else unreached))
  }

  /** What it makes of the record: a session is cached, credentials found wrong are erased and
    * marked so, ones that cannot be read erased, and a mail permission withdrawn taken out. */
  predicate LoginRecorded(doc: Account, outcome: Outcome, at: int, after: Account) {
    match outcome
    case SignedIn(_, sealed, _) =>
      after == doc.(sealedSession := Some(sealed), sessionSavedAt := Some(at), sessionSource := Some("server"))
    case InvalidCredentials =>
      after == doc.(sealedVault := None, vaultSavedAt := None, vaultGmail := false, credentialsRejectedAt := Some(at))
    case VaultUnusable => after == doc.(sealedVault := None, vaultSavedAt := None, vaultGmail := false)
    case GmailRevoked(sealed) =>
      if doc.sealedVault.Some? then after == doc.(sealedVault := Some(sealed), vaultGmail := false) else after == doc
    case _ => after == doc
  }

  /** `loginDone` settles its own request while it is pending, and nothing else. */
  lemma LoginSettlesItsRequest(s: State, step: Step, t: State)
    requires Next(s, step, t) && step.LoginDone?
    ensures t == s.(requests := t.requests, clock := step.now)
    ensures if step.id in s.requests && s.requests[step.id].IsPending(step.now)
            then step.id in t.requests && t.requests == s.requests[step.id := t.requests[step.id]]
                 && LoginSettles(s.requests[step.id], step.outcome, step.network, t.requests[step.id])
            else t.requests == s.requests
  {
  }

  lemma LoginIsRecorded(doc: Account, outcome: Outcome, at: int)
    ensures LoginRecorded(doc, outcome, at, DocAfterLogin(doc, outcome, at))
  {
  }

  // ---- a phone's answer ----

  /** What a phone's answer makes of a pending request: its own session, or the end with what the
    * phone says or what is wrong with its cookies; nothing when they could not be checked. */
  predicate AnswerSettles(before: Request, answer: PhoneAnswer, after: Request) {
    match answer
    case OwnSession(header, _, _) =>
      after == before.(status := Success, cookies := Some(header), csrfToken := None, source := Some("phone"),
                       error := None)
    case Refusal(text) => after == before.(status := Error, error := Some(Told(text)))
    case OtherStudent => after == before.(status := Error, error := Some(AccountMismatch))
    case ExpiredSession => after == before.(status := Error, error := Some(PhoneSessionInvalid))
    case InvalidCookies => after == before
    case EngineUnreachable => after == before
  }

  /** `answer` settles its own request while it is pending, and nothing else. */
  lemma AnswerSettlesItsRequest(s: State, step: Step, t: State)
    requires Next(s, step, t) && step.Answer?
    ensures t == s.(requests := t.requests, clock := step.now)
    ensures if step.id in s.requests && s.requests[step.id].IsPending(step.now)
            then step.id in t.requests && t.requests == s.requests[step.id := t.requests[step.id]]
                 && AnswerSettles(s.requests[step.id], step.answer, t.requests[step.id])
            else t.requests == s.requests
  {
  }

  /** What it makes of the record: a session it sealed is cached and credentials it sealed are
    * kept, each alone where the other is missing. */
  predicate AnswerRecorded(doc: Account, answer: PhoneAnswer, at: int, after: Account) {
    if !answer.OwnSession? then after == doc
    else
      var session, kept := answer.sealed, answer.credentials;
      && after == doc.(sealedSession := after.sealedSession, sessionSavedAt := after.sessionSavedAt,
                       sessionSource := after.sessionSource, sealedVault := after.sealedVault,
                       vaultSavedAt := after.vaultSavedAt, vaultGmail := after.vaultGmail,
                       credentialsRejectedAt := after.credentialsRejectedAt)
      && (if session.Some?
          then after.sealedSession == session && after.sessionSavedAt == Some(at)
               && after.sessionSource == Some("phone")
          else after.sealedSession == doc.sealedSession && after.sessionSavedAt == doc.sessionSavedAt
               && after.sessionSource == doc.sessionSource)
      && if kept.Some?
         then after.sealedVault == Some(kept.value.sealed) && after.vaultSavedAt == Some(at)
              && after.vaultGmail == kept.value.gmail && after.credentialsRejectedAt.None?
         else after.sealedVault == doc.sealedVault && after.vaultSavedAt == doc.vaultSavedAt
              && after.vaultGmail == doc.vaultGmail && after.credentialsRejectedAt == doc.credentialsRejectedAt
  }

  lemma AnswerIsRecorded(doc: Account, answer: PhoneAnswer, at: int)
    ensures AnswerRecorded(doc, answer, at, DocAfterAnswer(doc, answer, at))
  {
  }

  // ---- the alarm ----

  /** An alarm drops the requests made ten minutes ago or longer, and those alone. */
  lemma AlarmDropsOld(s: State, step: Step, t: State, id: string)
    requires Next(s, step, t) && step.Alarm?
    ensures id in t.requests <==> id in s.requests && step.now < s.requests[id].createdAt + 600
  {
  }

  /** The alarm chosen comes for every request kept, to drop it or take it over, and for
    * credentials whose lifetime ends; and for nothing else but the next second. */
  lemma AlarmComesForAll(step: Step, t: State)
    requires Reschedules(step) && IsScheduled(t.alarm, t.requests, ScheduledDoc(step), step.now)
    ensures t.requests != map[] ==> t.alarm.Some?
    ensures forall id <- t.requests :: t.alarm.Some? ==>
              && t.alarm.value <= Max(t.requests[id].createdAt + 600, step.now + 1)
              && (t.requests[id].TakeoverDue() ==>
                    t.alarm.value <= Max(t.requests[id].vaultDueAt.value, step.now + 1))
    ensures var doc := ScheduledDoc(step);
            doc.settings.vaultTtlSecs.Some? && doc.vaultSavedAt.Some? && doc.sealedVault.Some? ==>
              t.alarm.Some?
              && t.alarm.value <= Max(doc.vaultSavedAt.value + doc.settings.vaultTtlSecs.value, step.now + 1)
    ensures t.alarm.Some? && step.now + 1 < t.alarm.value ==>
              var doc := ScheduledDoc(step);
              || (exists id <- t.requests ::
                    t.alarm.value == t.requests[id].createdAt + 600 || t.alarm == t.requests[id].vaultDueAt)
              || (doc.settings.vaultTtlSecs.Some? && doc.vaultSavedAt.Some?
                  && t.alarm.value == doc.vaultSavedAt.value + doc.settings.vaultTtlSecs.value)
  {
    forall id | id in t.requests
      ensures t.alarm.Some? && t.alarm.value <= Max(t.requests[id].createdAt + 600, step.now + 1)
      ensures t.requests[id].TakeoverDue() ==>
                t.alarm.value <= Max(t.requests[id].vaultDueAt.value, step.now + 1)
    {
      assert DueFor(t.requests[id], t.requests[id].createdAt + 600);
      assert IsDue(t.requests, ScheduledDoc(step), t.requests[id].createdAt + 600);
      if t.requests[id].TakeoverDue() {
        assert IsDue(t.requests, ScheduledDoc(step), t.requests[id].vaultDueAt.value);
      }
    }
    var doc := ScheduledDoc(step);
    if doc.settings.vaultTtlSecs.Some? && doc.vaultSavedAt.Some? && doc.sealedVault.Some? {
      assert IsDue(t.requests, doc, doc.vaultSavedAt.value + doc.settings.vaultTtlSecs.value);
    }
    if t.requests != map[] {
      var id :| id in t.requests;
    }
  }

  // ---- over whole runs ----

  /** The step brought the session the request succeeded with. */
  predicate Brought(step: Step, request: Request) {
    match step
    case LoginDone(id, SignedIn(cookies, _, token), _, _) =>
      && id == request.id && request.cookies == Some(cookies) && request.csrfToken == token
      && request.source == Some("server")
    case Answer(id, OwnSession(header, _, _), _) =>
      id == request.id && request.cookies == Some(header) && request.csrfToken.None? && request.source == Some("phone")
    case _ => false
  }

  ghost predicate BroughtAt(states: seq<State>, steps: seq<Step>, k: nat, id: string, request: Request) {
    && k < |steps| && k < |states| && Brought(steps[k], request)
    && id in states[k].requests && states[k].requests[id].IsPending(steps[k].now)
  }

  /** A request that succeeded shows the session of a sign-in or a phone's answer that came for it
    * while it was pending. */
  lemma {:induction false} SuccessWasBrought(states: seq<State>, steps: seq<Step>, i: nat, id: string)
    requires IsRun(states, steps) && i < |states|
    requires id in states[i].requests && states[i].requests[id].status.Success?
    ensures exists k: nat :: k < i && BroughtAt(states, steps, k, id, states[i].requests[id])
  {
    var before := i - 1;
    var step := steps[before];
    RunKeepsInvariant(states, steps, before);
    assert StepAt(states, steps, before);
    BroughtOrKept(states[before], step, states[i], id);
    if !BroughtAt(states, steps, before, id, states[i].requests[id]) {
      SuccessWasBrought(states, steps, before, id);
    }
  }

  lemma BroughtOrKept(s: State, step: Step, t: State, id: string)
    requires Invariant(s) && Next(s, step, t)
    requires id in t.requests && t.requests[id].status.Success?
    ensures id in s.requests
    ensures t.requests[id] == s.requests[id]
            || (s.requests[id].IsPending(step.now) && Brought(step, t.requests[id]))
  {
    match step
    case LoginDone(_, _, _, _) => LoginSettlesItsRequest(s, step, t);
    case Answer(_, _, _) => AnswerSettlesItsRequest(s, step, t);
    case _ => OthersBringNothing(s, step, t, id);
  }

  lemma OthersBringNothing(s: State, step: Step, t: State, id: string)
    requires Invariant(s) && Next(s, step, t) && !step.LoginDone? && !step.Answer?
    requires id in t.requests && t.requests[id].status.Success?
    ensures id in s.requests && t.requests[id] == s.requests[id]
  {
    if step.FinishStart? {
      var w := s.waiting[step.id];
      assert WaitingInvariant(s, step.id);
      BegunIsWorkedOn(w.doc, w.request, w.at, step.network);
      assert !Begun(w.doc, w.request, w.at, step.network).status.Success?;
    }
  }

  /** The engine takes a sign-in for a request in this step. */
  predicate TakesSignIn(s: State, step: Step, id: string) {
    match step
    case FinishStart(_, q, network, _) =>
      && q == id && id in s.waiting && Starts(s.waiting[id].doc, s.waiting[id].at, network.engineTakes)
      && (s.waiting[id].doc.settings.alwaysUseVault || !Reaches(s.waiting[id].request, network))
    case FinishLogin(q, takes, _) => q == id && id in s.waiting && Starts(s.waiting[id].doc, s.waiting[id].at, takes)
    case Alarm(doc, takes, now) =>
      && id in s.requests && now < s.requests[id].createdAt + 600 && s.requests[id].IsPending(now)
      && s.requests[id].TakeoverDue() && s.requests[id].vaultDueAt.value <= now && Starts(doc, now, id in takes)
    case _ => false
  }

  lemma SignInsAreCounted(s: State, step: Step, t: State, id: string)
    requires Invariant(s) && Next(s, step, t)
    ensures t.accepted[id] == s.accepted[id] + if TakesSignIn(s, step, id) then 1 else 0
  {
    assert id in s.waiting ==> WaitingInvariant(s, id);
  }

  lemma {:induction false} CountedSignIn(states: seq<State>, steps: seq<Step>, i: nat, j: nat, id: string)
    requires IsRun(states, steps) && i < j < |states| && TakesSignIn(states[i], steps[i], id)
    ensures states[j].accepted[id] >= 1
    decreases j
  {
    assert StepAt(states, steps, j - 1);
    RunKeepsInvariant(states, steps, j - 1);
    SignInsAreCounted(states[j - 1], steps[j - 1], states[j], id);
    if i < j - 1 {
      CountedSignIn(states, steps, i, j - 1, id);
    }
  }

  /** The engine takes no second sign-in for a request, whatever its handler, the alarm and the
    * answers do meanwhile. */
  lemma OneSignInEach(states: seq<State>, steps: seq<Step>, i: nat, j: nat, id: string)
    requires IsRun(states, steps) && i < j < |steps|
    requires TakesSignIn(states[i], steps[i], id)
    ensures !TakesSignIn(states[j], steps[j], id)
  {
    CountedSignIn(states, steps, i, j, id);
    RunKeepsInvariant(states, steps, j);
    RunKeepsInvariant(states, steps, j + 1);
    assert StepAt(states, steps, j);
    SignInsAreCounted(states[j], steps[j], states[j + 1], id);
  }
}
