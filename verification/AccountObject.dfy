/** The account object's handlers, step by step on its tables, refining the request machine. */
module AccountObject {
  import opened Options
  import opened Lists
  import opened Numbers
  import opened AccountRecords
  import opened SessionRequests
  import opened SessionOutcomes

  /** How a session call is answered: refused, served from the cache, joined to the live request,
    * or with a new one. */
  datatype Reply =
    | NoSuchKey
    | RateLimited
    | NoCredentials
    | FromCache
    | Joined(request: Request)
    | Started(request: Request)

  class Account {
    var requests: map<string, Request>
    var pendingId: Option<string>
    var alarm: Option<int>
    ghost var waiting: map<string, Waiting>
    ghost var setAt: int
    ghost var made: set<string>
    ghost var accepted: multiset<string>
    ghost var clock: int

    constructor ()
      ensures Now() == INITIAL
    {
      requests, pendingId, alarm := map[], None, None;
      waiting, setAt, made, accepted, clock := map[], 0, {}, multiset{}, 0;
    }

    ghost function Now(): State
      reads this
    {
      State(requests, pendingId, waiting, alarm, setAt, made, accepted, clock)
    }

    /** Asks every install of the request; the failure is absent as soon as one logged the event. */
    method AskPhone(request: Request, network: Network) returns (asked: Request, failure: Option<Message>)
      ensures (asked, failure) == Asked(request, network)
      ensures !request.phoneAsked ==>
                && asked == request.(phoneAsked := Reaches(request, network))
                && failure == if Reaches(request, network) then None else Some(WhyUnreached(request, network))
    {
      asked := request;
      if request.phones == [] {
        return asked, Some(PhoneUnreachable);
      }
      if !network.urlSet {
        return asked, Some(PhoneUnavailable);
      }
      var reason := PhoneUnreachable;
      for i := 0 to |request.phones|
        invariant asked ==
                    request.(phoneAsked := request.phoneAsked
                                           || exists d <- request.phones[..i] :: network.phones(d).Logged?)
        invariant reason ==
                    if exists d <- request.phones[..i] :: network.phones(d).CallFailed? then PhoneUnavailable
                    else PhoneUnreachable
      {
        assert request.phones[..i + 1] == request.phones[..i] + [request.phones[i]];
        match network.phones(request.phones[i])
        case Logged => asked := asked.(phoneAsked := true);
        case NoInstall =>
        case CallFailed => reason := PhoneUnavailable;
      }
      assert request.phones[..|request.phones|] == request.phones;
      failure := if asked.phoneAsked then None else Some(reason);
    }

    method AskPhoneOrFail(request: Request, network: Network) returns (asked: Request)
      ensures asked == AskedOrFailed(request, network)
    {
      var failure;
      asked, failure := AskPhone(request, network);
      if failure.Some? {
        asked := asked.Fail(failure.value);
      }
    }

    /** Offers the usable credentials to the engine, and marks the request if they are accepted. */
    method StartLogin(doc: AccountRecords.Account, request: Request, at: int, engineTakes: bool)
      returns (started: Request, ok: bool)
      ensures started == StartedLogin(doc, request, at, engineTakes) && ok == Starts(doc, at, engineTakes)
    {
      if doc.UsableVault(at).None? {
        return request, false;
      }
      if engineTakes {
        return request.(vaultStarted := true), true;
      }
      return request, false;
    }

    /** A new request is offered to the engine or asked of its phones, whichever comes first by the
      * settings and can be done, never both; a takeover comes only after a phone was asked, as
      * long after as the settings say; one that failed reached nobody, and where credentials were
      * usable the engine did not take them. */
    method Begin(doc: AccountRecords.Account, request: Request, at: int, network: Network) returns (begun: Request)
      ensures begun == Begun(doc, request, at, network)
      ensures IsUntouched(request) ==>
                && IsBegun(doc, request, at, network, begun)
                && (begun.status.Pending? ==> (begun.phoneAsked <==> !begun.vaultStarted))
                && (begun.status.Error? <==> !begun.phoneAsked && !begun.vaultStarted)
                && (begun.status.Error? && doc.UsableVault(at).Some? ==> !network.engineTakes)
    {
      var failure, ok;
      match Planned(doc.settings, doc.UsableVault(at).Some?)
      case VaultFirst =>
        begun, ok := StartLogin(doc, request, at, network.engineTakes);
        if !ok {
          begun := AskPhoneOrFail(request, network);
        }
      case PhoneFirst(waitSecs) =>
        begun, failure := AskPhone(request, network);
        if failure.None? {
          begun := begun.(vaultDueAt := Some(at + waitSecs));
        } else {
          begun := begun.(phoneError := failure);
          begun, ok := StartLogin(doc, begun, at, network.engineTakes);
          if !ok {
            begun := begun.Fail(failure.value);
          }
        }
      case PhoneOnly =>
        begun := AskPhoneOrFail(request, network);
    }

    method Record(request: Request, ghost doc: AccountRecords.Account, ghost at: int)
      modifies this
      ensures Now() == Recorded(old(Now()), request, doc, at)
    {
      requests := requests[request.id := request];
      pendingId := Some(request.id);
      waiting := waiting[request.id := Waiting(request, doc, at)];
      made := made + {request.id};
    }

    /** `startSession` up to recording its request, if it makes one: how the call is answered, and
      * the record it saves, counted and used unless its key is unknown. */
    method BeginSession(doc: AccountRecords.Account, keyHash: string, id: string, token: string, at: int,
                        check: CacheCheck, ghost now: int)
      returns (reply: Reply, after: AccountRecords.Account)
      requires Enabled(Now(), BeginStart(doc, keyHash, id, token, at, check, now))
      modifies this
      ensures Next(old(Now()), BeginStart(doc, keyHash, id, token, at, check, now), Now())
      ensures reply.NoSuchKey? <==> !Has(doc.keys, KeyHash, keyHash)
      ensures reply.RateLimited? <==>
                Has(doc.keys, KeyHash, keyHash) && !Allowed(Window(doc.windowStart, doc.windowHits), at)
      ensures reply.FromCache? <==>
                !reply.NoSuchKey? && !reply.RateLimited? && doc.CachedSession(at).Some? && check.Works?
      ensures reply.Joined? ==>
                && reply.request.IsPending(at) && requests == old(requests)
                && pendingId.Some? && Lookup(requests, pendingId.value) == Some(reply.request)
      ensures reply.Started? && old(pendingId).Some? && old(pendingId.value) in old(requests) ==>
                !old(requests[pendingId.value]).IsPending(at)
      ensures reply.Started? <==> StartRecords(old(Now()), doc, keyHash, at, check)
      ensures reply.Started? ==>
                && reply.request == NewRequest(id, token, at, doc.PhonesForKey(keyHash))
                && requests == old(requests)[id := reply.request] && pendingId == Some(id)
      ensures !reply.NoCredentials?
      ensures reply.NoSuchKey? ==> after == doc
      ensures !reply.NoSuchKey? ==>
                Window(after.windowStart, after.windowHits) == Counted(Window(doc.windowStart, doc.windowHits), at)
      ensures reply.RateLimited? ==> after == doc.(windowStart := after.windowStart, windowHits := after.windowHits)
      ensures !reply.NoSuchKey? && !reply.RateLimited? ==> CallSaved(doc, keyHash, at, check, after)
      ensures after == if reply.NoSuchKey? then doc
                       else if reply.RateLimited? then doc.CountedCall(at)
                       else CheckedDoc(doc.CountedCall(at).UsedKey(keyHash, at), at, check)
    {
      clock := now;
      if !Has(doc.keys, KeyHash, keyHash) {
        return NoSuchKey, doc;
      }
      after := doc.CountedCall(at);
      if !Allowed(Window(doc.windowStart, doc.windowHits), at) {
        return RateLimited, after;
      }
      CallsAreSaved(doc, keyHash, at, check);
      after := CheckedDoc(after.UsedKey(keyHash, at), at, check);
      if doc.CachedSession(at).Some? && check.Works? {
        return FromCache, after;
      }
      if pendingId.Some? && pendingId.value in requests && requests[pendingId.value].IsPending(at) {
        return Joined(requests[pendingId.value]), after;
      }
      // Stored ahead of the waits, where later calls find it to join.
      var made := NewRequest(id, token, at, doc.PhonesForKey(keyHash));
      Record(made, doc, at);
      return Started(made), after;
    }

    /** The rest of `startSession`, once its network calls are done. */
    method FinishSession(request: Request, loaded: AccountRecords.Account, doc: AccountRecords.Account, at: int,
                         network: Network, now: int)
      requires Enabled(Now(), FinishStart(doc, request.id, network, now))
      requires waiting[request.id] == Waiting(request, loaded, at) && !request.vaultStarted
      modifies this
      ensures Next(old(Now()), FinishStart(doc, request.id, network, now), Now())
    {
      var begun := Begin(loaded, request, at, network);
      // An answer that came during the waits is kept.
      if request.id in requests && requests[request.id].IsPending(at) {
        requests := requests[request.id := begun];
      }
      waiting := waiting - {request.id};
      if begun.vaultStarted {
        accepted := accepted + multiset{request.id};
      }
      clock := now;
      Reschedule(doc, now);
    }

    /** `appLogin` up to recording its request, if it makes one. */
    method BeginServerLogin(doc: AccountRecords.Account, id: string, token: string, at: int, check: CacheCheck,
                            ghost now: int)
      returns (reply: Reply, after: AccountRecords.Account)
      requires Enabled(Now(), BeginLogin(doc, id, token, at, check, now))
      modifies this
      ensures Next(old(Now()), BeginLogin(doc, id, token, at, check, now), Now())
      ensures reply.NoCredentials? <==> doc.UsableVault(at).None?
      ensures reply.FromCache? <==> doc.UsableVault(at).Some? && CacheServes(doc, at, check)
      ensures reply.Joined? ==>
                !CacheServes(doc, at, check) && reply.request.IsPending(at) && requests == old(requests)
                && pendingId.Some? && Lookup(requests, pendingId.value) == Some(reply.request)
      ensures reply.Started? <==> LoginRecords(old(Now()), doc, at, check)
      ensures reply.Started? ==>
                && reply.request == NewRequest(id, token, at, [])
                && requests == old(requests)[id := reply.request] && pendingId == Some(id)
      ensures !reply.NoSuchKey? && !reply.RateLimited?
      ensures after == if reply.NoCredentials? then doc else CheckedDoc(doc, at, check)
    {
      clock := now;
      if doc.UsableVault(at).None? {
        return NoCredentials, doc;
      }
      after := CheckedDoc(doc, at, check);
      if doc.CachedSession(at).Some? && check.Works? {
        return FromCache, after;
      }
      if pendingId.Some? && pendingId.value in requests && requests[pendingId.value].IsPending(at) {
        return Joined(requests[pendingId.value]), after;
      }
      var made := NewRequest(id, token, at, []);
      Record(made, doc, at);
      return Started(made), after;
    }

    /** The rest of `appLogin`'s start: a failure is written without reading the request again. */
    method FinishServerLogin(request: Request, loaded: AccountRecords.Account, at: int, engineTakes: bool,
                             ghost now: int)
      requires Enabled(Now(), FinishLogin(request.id, engineTakes, now))
      requires waiting[request.id] == Waiting(request, loaded, at)
      modifies this
      ensures Next(old(Now()), FinishLogin(request.id, engineTakes, now), Now())
    {
      var started, ok := StartLogin(loaded, request, at, engineTakes);
      waiting := waiting - {request.id};
      clock := now;
      if !ok {
        requests := requests[request.id := started.Fail(ServerLoginFailed)];
        return;
      }
      if request.id in requests && requests[request.id].IsPending(at) {
        requests := requests[request.id := started];
      }
      accepted := accepted + multiset{request.id};
    }

    /** What the engine's sign-in came to, and the record it leaves. Only a request still pending
      * is touched: it succeeds with the session, or fails once no phone is left to
      * wait for, or a phone is asked; the session is cached even when nobody waits. */
    method EngineDone(doc: AccountRecords.Account, id: string, outcome: Outcome, network: Network, now: int)
      returns (after: AccountRecords.Account)
      requires Enabled(Now(), LoginDone(id, outcome, network, now))
      modifies this
      ensures Next(old(Now()), LoginDone(id, outcome, network, now), Now())
      ensures after == DocAfterLogin(doc, outcome, now) && LoginRecorded(doc, outcome, now, after)
      ensures !(id in old(requests) && old(requests)[id].IsPending(now)) ==> requests == old(requests)
      ensures id in old(requests) && old(requests)[id].IsPending(now) ==>
                && id in requests
                && (requests[id].status.Success? <==> outcome.SignedIn?)
                && (outcome.SignedIn? ==>
                      requests[id].cookies == Some(outcome.cookies) && requests[id].source == Some("server"))
                && (requests[id].status.Pending? ==> requests[id].phoneAsked)
                && requests == old(requests)[id := requests[id]]
                && LoginSettles(old(requests)[id], outcome, network, requests[id])
      ensures outcome.SignedIn? ==> after.CachedSession(now) == Some(outcome.sealedSession)
      ensures outcome.InvalidCredentials? || outcome.VaultUnusable? ==> after.UsableVault(now).None?
    {
      clock := now;
      after := DocAfterLogin(doc, outcome, now);
      if id !in requests {
        return;
      }
      var request := requests[id];
      if request.IsPending(now) {
        if outcome.SignedIn? {
          request := request.Succeed(outcome.cookies, "server", outcome.csrfToken);
        } else if !request.phoneAsked {
          var failure;
          request, failure := AskPhone(request, network);
          if failure.Some? {
            request := request.Fail(OrElse(Reason(outcome), failure.value));
          }
        } else if request.phoneError.Some? {
          request := request.Fail(OrElse(Reason(outcome), request.phoneError.value));
        }
      }
      requests := requests[id := request];
    }

    /** A phone's cookies or refusal, and the record it leaves. Only a request still pending is
      * ended, but a session the phone made is cached even when it comes late. */
    method PhoneAnswered(doc: AccountRecords.Account, id: string, answer: PhoneAnswer, now: int)
      returns (after: AccountRecords.Account)
      requires Enabled(Now(), Answer(id, answer, now))
      modifies this
      ensures Next(old(Now()), Answer(id, answer, now), Now())
      ensures !(id in old(requests) && old(requests)[id].IsPending(now)) ==> requests == old(requests)
      ensures id in old(requests) && old(requests)[id].IsPending(now) ==>
                && id in requests && requests == old(requests)[id := requests[id]]
                && (answer.OwnSession? ==>
                      && requests[id].status.Success? && requests[id].cookies == Some(answer.header)
                      && requests[id].source == Some("phone") && requests[id].error.None?)
                && (answer.Refusal? ==> requests[id].status.Error? && requests[id].error == Some(Told(answer.text)))
                && (answer.OtherStudent? ==> requests[id].status.Error? && requests[id].error == Some(AccountMismatch))
                && (answer.ExpiredSession? ==>
                      requests[id].status.Error? && requests[id].error == Some(PhoneSessionInvalid))
                && (answer.InvalidCookies? || answer.EngineUnreachable? ==> requests[id] == old(requests)[id])
      ensures id !in old(requests) ==> after == doc
      ensures id in old(requests) && answer.OwnSession? && answer.sealed.Some? ==>
                after.CachedSession(now) == answer.sealed && after.sessionSource == Some("phone")
      ensures id in old(requests) && answer.OwnSession? && answer.credentials.Some? ==>
                && after.sealedVault == Some(answer.credentials.value.sealed)
                && after.vaultGmail == answer.credentials.value.gmail && after.credentialsRejectedAt.None?
      ensures id in old(requests) ==>
                after == DocAfterAnswer(doc, answer, now) && AnswerRecorded(doc, answer, now, after)
    {
      clock, after := now, doc;
      if id !in requests {
        return;
      }
      var request := requests[id];
      if request.IsPending(now) {
        match answer
        case Refusal(text) => request := request.Fail(Told(text));
        case InvalidCookies =>
        case EngineUnreachable =>
        case OwnSession(header, _, _) => request := request.Succeed(header, "phone", None);
        case OtherStudent => request := request.Fail(AccountMismatch);
        case ExpiredSession => request := request.Fail(PhoneSessionInvalid);
      }
      requests := requests[id := request];
      if answer.OwnSession? {
        if answer.sealed.Some? {
          after := after.SavedSession(answer.sealed.value, now, "phone");
        }
        if answer.credentials.Some? {
          after := after.SavedVault(answer.credentials.value.sealed, now, answer.credentials.value.gmail);
        }
      }
    }

    /** Sets the alarm for the earliest of the takeovers, the drops and the end of the vault. */
    method Reschedule(doc: AccountRecords.Account, now: int)
      modifies this`alarm, this`setAt
      ensures setAt == now && IsScheduled(alarm, requests, doc, now)
    {
      var first := EarliestRequest();
      if doc.settings.vaultTtlSecs.Some? && doc.vaultSavedAt.Some? && doc.sealedVault.Some? {
        first := Sooner(first, doc.vaultSavedAt.value + doc.settings.vaultTtlSecs.value);
      }
      setAt := now;
      alarm := match first case None => None case Some(time) => Some(now + Max(1, time - now));
      if first.Some? {
        assert IsDue(requests, doc, first.value) && alarm.value == Max(first.value, now + 1);
      }
    }

    /** The earliest takeover or drop of a request. */
    method EarliestRequest() returns (first: Option<int>)
      ensures first.None? ==> requests.Keys == {}
      ensures first.Some? ==> exists id <- requests :: DueFor(requests[id], first.value)
      ensures forall id <- requests, time :: DueFor(requests[id], time) ==> first.Some? && first.value <= time
    {
      first := None;
      var todo := requests.Keys;
      while todo != {}
        invariant todo <= requests.Keys
        invariant first.None? ==> todo == requests.Keys
        invariant first.Some? ==> exists id <- requests :: DueFor(requests[id], first.value)
        invariant forall id <- requests.Keys - todo, time :: DueFor(requests[id], time) ==>
                    first.Some? && first.value <= time
        decreases |todo|
      {
        var id :| id in todo;
        var request := requests[id];
        ghost var before := first;
        first := Sooner(first, request.createdAt + REQUEST_KEEP_SECS);
        if request.TakeoverDue() {
          first := Sooner(first, request.vaultDueAt.value);
        }
        assert before == first || DueFor(request, first.value);
        todo := todo - {id};
      }
    }

    function Sooner(first: Option<int>, time: int): Option<int> {
      if first.None? || time < first.value then Some(time) else first
    }

    /** Drops old requests, starts the sign-ins that are due, one request at a time, and drops
      * saved credentials that ran out; the record it leaves. */
    method OnAlarm(doc: AccountRecords.Account, takes: set<string>, now: int) returns (after: AccountRecords.Account)
      requires Enabled(Now(), Alarm(doc, takes, now))
      modifies this
      ensures Next(old(Now()), Alarm(doc, takes, now), Now())
      ensures after.sealedVault.Some? ==> after == doc && doc.UsableVault(now).Some?
      ensures after.sealedVault.None? ==> after == (if doc.sealedVault.Some? then doc.ClearedVault() else doc)
    {
      SweepAll(doc, takes, now);
      clock := now;
      after := doc;
      if doc.sealedVault.Some? && doc.UsableVault(now).None? {
        after := doc.ClearedVault();
      }
      Reschedule(after, now);
    }

    method SweepAll(doc: AccountRecords.Account, takes: set<string>, now: int)
      modifies this`requests, this`accepted
      ensures Now() == Swept(old(Now()), doc, takes, now)
    {
      ghost var before := Now();
      var todo := requests.Keys;
      while todo != {}
        invariant todo <= before.requests.Keys
        invariant SweptSoFar(before, requests, accepted, doc, takes, now, todo)
        decreases |todo|
      {
        var id :| id in todo;
        assert Lookup(requests, id) == Some(before.requests[id]);
        ghost var was, counted := requests, accepted;
        SweepOne(doc, id, id in takes, now);
        SweptOneMore(before, was, counted, doc, takes, now, todo, id, requests, accepted);
        todo := todo - {id};
      }
      SweptAll(before, requests, accepted, doc, takes, now);
    }

    /** One request at the alarm. */
    method SweepOne(doc: AccountRecords.Account, id: string, engineTakes: bool, now: int)
      requires id in requests
      modifies this`requests, this`accepted
      ensures requests == if IsOld(old(requests)[id], now) then old(requests) - {id}
                          else old(requests)[id := AfterAlarm(doc, old(requests)[id], now, engineTakes)]
      ensures accepted == if StartsAtAlarm(doc, old(requests)[id], now, engineTakes) then old(accepted) + multiset{id}
                          else old(accepted)
    {
      var request := requests[id];
      if IsOld(request, now) {
        requests := requests - {id};
        return;
      }
      if TakesOver(request, now) {
        var started, ok := StartLogin(doc, request, now, engineTakes);
        if ok {
          accepted := accepted + multiset{id};
        } else {
          started := started.(vaultDueAt := None);
        }
        request := started;
      }
      requests := requests[id := request];
    }
  }

  /** What the alarm makes of one request. */
  function SweptRow(doc: AccountRecords.Account, request: Request, now: int, engineTakes: bool): Option<Request> {
    if IsOld(request, now) then None else Some(AfterAlarm(doc, request, now, engineTakes))
  }

  /** The requests looked at are swept, the others untouched. */
  ghost predicate SweptSoFar(before: State, requests: map<string, Request>, accepted: multiset<string>,
                             doc: AccountRecords.Account, takes: set<string>, now: int, todo: set<string>)
  {
    && requests.Keys <= before.requests.Keys
    && (forall id <- before.requests :: Lookup(requests, id) ==
          if id in todo then Some(before.requests[id]) else SweptRow(doc, before.requests[id], now, id in takes))
    && forall id :: accepted[id] == before.accepted[id] +
         if id in before.requests && id !in todo && StartsAtAlarm(doc, before.requests[id], now, id in takes)
         then 1 else 0
  }

  lemma SweptOneMore(before: State, was: map<string, Request>, counted: multiset<string>, doc: AccountRecords.Account,
                     takes: set<string>, now: int, todo: set<string>, id: string,
                     requests: map<string, Request>, accepted: multiset<string>)
    requires SweptSoFar(before, was, counted, doc, takes, now, todo)
    requires id in todo && id in before.requests && id in was
    requires requests ==
               if IsOld(was[id], now) then was - {id} else was[id := AfterAlarm(doc, was[id], now, id in takes)]
    requires accepted == if StartsAtAlarm(doc, was[id], now, id in takes) then counted + multiset{id} else counted
    ensures SweptSoFar(before, requests, accepted, doc, takes, now, todo - {id})
  {
    assert Lookup(was, id) == Some(before.requests[id]);
    forall other | other in before.requests
      ensures Lookup(requests, other) ==
                if other in todo - {id} then Some(before.requests[other])
                else SweptRow(doc, before.requests[other], now, other in takes)
    {
      assert other != id ==> Lookup(requests, other) == Lookup(was, other);
    }
  }

  lemma SweptAll(before: State, requests: map<string, Request>, accepted: multiset<string>,
                 doc: AccountRecords.Account, takes: set<string>, now: int)
    requires SweptSoFar(before, requests, accepted, doc, takes, now, {})
    ensures requests == Swept(before, doc, takes, now).requests
    ensures accepted == Swept(before, doc, takes, now).accepted
  {
    var swept := Swept(before, doc, takes, now);
    forall id ensures Lookup(requests, id) == Lookup(swept.requests, id) {
      if id !in before.requests {
        assert id !in requests && id !in swept.requests;
      }
    }
    SameTable(requests, swept.requests);
  }
}
