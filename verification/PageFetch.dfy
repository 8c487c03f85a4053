/** One page fetch of the phone: at most two exchanges with the gateway, whatever either side
  * has forgotten of the other. */
module PageFetch {
  import opened Options
  import opened Lists
  import opened SessionCache

  /** How long the phone counts on a session it sent: an hour less than the gateway keeps it. */
  const SESSION_RESEND_MS := 5 * 3600 * 1000

  /** What the phone remembers of the last session it sent. */
  datatype Sent = Sent(hash: nat, at: nat)

  /** `session`: the new session, when the gateway had to sign in again. */
  datatype Response = Response(status: nat, session: Option<string>)

  /** The engine's answer to a fetch; whether it says the session expired. */
  datatype EngineAnswer = EngineAnswer(status: nat, expired: bool)

  /** The result of signing in again: refused, nothing new, or a session as JSON. */
  datatype SignIn = Rejected | NoNewSession | NewSession(json: string)

  /** What the gateway meets while it processes one request. */
  datatype Events = Events(first: EngineAnswer, signIn: SignIn, second: EngineAnswer)

  /** The engine never answers with the status the gateway keeps for a missing session, and an
    * expired session is a 401. */
  predicate EngineAnswers(events: Events) {
    && events.first.status != NEED_SESSION && events.second.status != NEED_SESSION
    && (events.first.expired ==> events.first.status == 401)
  }

  /** A processed request: the answer, the sessions it was fetched on in order, and what the
    * gateway holds for the device then. */
  datatype Processed = Processed(response: Response, fetchedOn: seq<string>, entry: Option<Kept>)

  /** `Engine::page` for one device, from what the cache holds for it. */
  function Process(entry: Option<Kept>, page: PageRequest, events: Events, hashOf: string -> nat,
                   readJson: string -> Option<string>, now: int):
    Processed
  {
    match FoundSession(entry, page, hashOf, readJson, now)
    case None => Processed(Response(NEED_SESSION, None), [], entry)
    case Some((session, account)) =>
      var kept := Some(Kept(page.sessionHash, session, account, now));
      var answer := Response(events.first.status, None);
      if account.None? || !events.first.expired then Processed(answer, [session], kept)
      else
        match events.signIn
        case Rejected => Processed(Response(401, None), [session], kept)
        case NoNewSession => Processed(answer, [session], kept)
        case NewSession(json) =>
          var renewed := if readJson(json).Some? then readJson(json).value else json;
          Processed(Response(events.second.status, Some(json)), [session, renewed],
                    Some(Kept(hashOf(json), renewed, account, now)))
  }

  /** The session a request is fetched on and the account that may renew it: both sent along, the
    * session well formed and hashed as named, or both kept under that hash. */
  predicate RunsOn(entry: Option<Kept>, page: PageRequest, hashOf: string -> nat, readJson: string -> Option<string>,
                   now: int, session: string, account: Option<string>)
  {
    if page.session.Some?
    then
      && hashOf(page.session.value) == page.sessionHash && readJson(page.session.value) == Some(session)
      && account == page.account
    else
      && HashFinds(entry, page.sessionHash, now)
      && entry.value.session == session && entry.value.account == account
  }

  /** A session found expired is renewed when there is an account to sign in with: the page is
    * fetched once more, on the new session, which goes back to the phone and is kept under its
    * hash. A refused sign-in is a 401. Everything else gets the first answer, and no session. */
  predicate IsAnswered(p: Processed, session: string, account: Option<string>, events: Events, hashOf: string -> nat,
                       readJson: string -> Option<string>, now: int)
  {
    if account.Some? && events.first.expired && events.signIn.NewSession? then
      var json := events.signIn.json;
      && p.response.session == Some(json) && p.response.status == events.second.status
      && |p.fetchedOn| == 2 && p.fetchedOn[0] == session
      && (readJson(json).Some? ==> p.fetchedOn[1] == readJson(json).value)
      && (readJson(json).None? ==> p.fetchedOn[1] == json)
      && p.entry == Some(Kept(hashOf(json), p.fetchedOn[1], account, now))
    else
      && p.response.session.None? && p.fetchedOn == [session]
      && p.response.status ==
           (if account.Some? && events.first.expired && events.signIn.Rejected? then 401 else events.first.status)
      && p.entry.Some? && p.entry.value.session == session && p.entry.value.account == account
      && p.entry.value.at == now
  }

  /** Whatever the gateway holds: a request whose session is found is answered on it, renewed as
    * it should be, and one whose session is not found is asked for it, with nothing fetched. */
  lemma ExpiredIsRenewed(entry: Option<Kept>, page: PageRequest, events: Events, hashOf: string -> nat,
                         readJson: string -> Option<string>, now: int, session: string, account: Option<string>)
    ensures var p := Process(entry, page, events, hashOf, readJson, now);
            if RunsOn(entry, page, hashOf, readJson, now, session, account)
            then IsAnswered(p, session, account, events, hashOf, readJson, now)
            else (forall s, a :: !RunsOn(entry, page, hashOf, readJson, now, s, a)) ==>
                   p == Processed(Response(428, None), [], entry)
  {
    match FoundSession(entry, page, hashOf, readJson, now)
    case None =>
    case Some((s, a)) => assert RunsOn(entry, page, hashOf, readJson, now, s, a);
  }

  /** The phone believes the gateway holds the session with this hash. */
  predicate GatewayHas(sent: Option<Sent>, hash: nat, now: nat) {
    && sent.Some? && sent.value.hash == hash
    && (if now < sent.value.at then 0 else now - sent.value.at) < SESSION_RESEND_MS
  }

  /** A session sent is counted on for five hours. */
  lemma CountedOnForFiveHours(sent: Sent, hash: nat, now: nat)
    ensures GatewayHas(Some(sent), hash, now) <==> hash == sent.hash && now < sent.at + 5 * 3600 * 1000
  {
  }

  /** A request with only a hash finds its session. */
  predicate HashFinds(entry: Option<Kept>, hash: nat, now: int) {
    entry.Some? && entry.value.hash == hash && !IsStale(entry.value, now)
  }

  class Phone {
    var sent: Option<Sent>

    constructor (sent: Option<Sent>)
      ensures this.sent == sent
    {
      this.sent := sent;
    }

    method RememberSent(hash: nat, now: nat)
      modifies this
      ensures sent == Some(Sent(hash, now))
    {
      sent := Some(Sent(hash, now));
    }

    /** `fetch_page`. `entries`: what the gateway holds for this device when each exchange is
      * processed; anything may have happened to it meanwhile. */
    method FetchPage(session: string, account: Option<string>, hashOf: string -> nat,
                     readJson: string -> Option<string>, entries: (Option<Kept>, Option<Kept>),
                     events: (Events, Events), now: nat)
      returns (response: Response, exchanges: nat, ghost last: Processed)
      requires EngineAnswers(events.0) && EngineAnswers(events.1)
      modifies this
      // A well-formed session is never refused at the end, in at most two exchanges; the
      // second is made just when the phone counted on a session the gateway no longer finds.
      ensures session != "" && readJson(session).Some? ==>
                && response.status != NEED_SESSION
                && (exchanges == 2 <==>
                      GatewayHas(old(sent), hashOf(session), now) && !HashFinds(entries.0, hashOf(session), now))
      ensures exchanges == 1 || exchanges == 2
      ensures response == last.response
      // The page is first fetched on the session sent, or on one kept under its hash.
      ensures session != "" && readJson(session).Some? ==>
                && last.fetchedOn != []
                && if GatewayHas(old(sent), hashOf(session), now) && exchanges == 1
                   then HashFinds(entries.0, hashOf(session), now) && last.fetchedOn[0] == entries.0.value.session
                   else last.fetchedOn[0] == readJson(session).value
      // An expired session is renewed with the account there is: the one sent, or the one kept.
      ensures session != "" && readJson(session).Some? ==>
                var used := if exchanges == 1 then events.0 else events.1;
                var paid := if GatewayHas(old(sent), hashOf(session), now) && exchanges == 1
                            then entries.0.value.account else account;
                IsAnswered(last, last.fetchedOn[0], paid, used, hashOf, readJson, now)
      // What the phone remembers anew, the gateway holds.
      ensures session != "" && readJson(session).Some? && sent != old(sent) ==>
                sent.Some? && last.entry.Some? && last.entry.value.hash == sent.value.hash && sent.value.at == now
      // A renewed session is the one remembered.
      ensures response.session.Some? ==> sent == Some(Sent(hashOf(response.session.value), now))
    {
      var hash := hashOf(session);
      var carries := session != "" && !GatewayHas(sent, hash, now);
      var request := PageRequest(hash, if carries then Some(session) else None, if carries then account else None);
      var processed := Process(entries.0, request, events.0, hashOf, readJson, now);
      exchanges := 1;
      if processed.response.status == NEED_SESSION && request.session.None? && session != "" {
        request := request.(session := Some(session), account := account);
        processed := Process(entries.1, request, events.1, hashOf, readJson, now);
        exchanges := 2;
      }
      response, last := processed.response, processed;
      if request.session.Some? && response.status < 500 && response.status != NEED_SESSION {
        RememberSent(hash, now);
      }
      if response.session.Some? {
        RememberSent(hashOf(response.session.value), now);
      }
    }
  }

  /** `Engine::page` on the gateway's cache: it answers, fetches, and leaves the device's entry,
    * as a processed request does; a renewed session is kept under its own hash. */
  method PageOfRequest(gateway: Gateway, device: Device, page: PageRequest, events: Events, now: int)
    returns (response: Response, fetchedOn: seq<string>)
    requires gateway.clock <= now
    modifies gateway`sessions, gateway`latest, gateway`clock
    ensures Processed(response, fetchedOn, Lookup(gateway.sessions, device)) ==
            Process(Lookup(old(gateway.sessions), device), page, events, gateway.hashOf, gateway.readJson, now)
    ensures forall session, account ::
              RunsOn(Lookup(old(gateway.sessions), device), page, gateway.hashOf, gateway.readJson, now, session,
                     account) ==>
              IsAnswered(Processed(response, fetchedOn, Lookup(gateway.sessions, device)), session, account, events,
                         gateway.hashOf, gateway.readJson, now)
  {
    ghost var entry := Lookup(gateway.sessions, device);
    forall s, a {
      ExpiredIsRenewed(entry, page, events, gateway.hashOf, gateway.readJson, now, s, a);
    }
    var found, step := gateway.Session(device, page, now);
    if found.None? {
      return Response(NEED_SESSION, None), [];
    }
    assert gateway.Now().clock == now && gateway.Now().cached == gateway.sessions;
    response, fetchedOn := Response(events.first.status, None), [found.value.0];
    if found.value.1.None? || !events.first.expired {
      return;
    }
    match events.signIn
    case Rejected => response := Response(401, None);
    case NoNewSession =>
    case NewSession(json) =>
      var value := gateway.readJson(json);
      var renewed := if value.Some? then value.value else json;
      ghost var evicted := gateway.KeepSession(device, gateway.hashOf(json), renewed, found.value.1, now);
      response, fetchedOn := Response(events.second.status, Some(json)), fetchedOn + [renewed];
  }

  /** The time a session kept by the gateway outlives what the phone remembers of it. */
  const SLACK_MS := SESSION_KEEP - SESSION_RESEND_MS

  /** Once the gateway kept the session the phone remembers (within an hour of it), every fetch
    * the phone still counts on it for finds it and needs one exchange, through any run of the
    * cache in which the device was not evicted and nothing else was kept for it. */
  lemma NextFetchNeedsOne(states: seq<State>, steps: seq<Step>, i: nat, j: nat, device: Device, sent: Sent, later: nat)
    requires IsRun(states, steps) && i <= j < |states| && device in states[i].cached
    requires states[i].cached[device].hash == sent.hash && sent.at <= states[i].cached[device].at + SLACK_MS
    requires states[j].clock <= later && GatewayHas(Some(sent), sent.hash, later)
    requires forall k :: i <= k < j && steps[k].Keep? ==> steps[k].evicted != Some(device) && steps[k].device != device
    ensures HashFinds(Lookup(states[j].cached, device), sent.hash, later)
  {
    ClockRuns(states, steps, j);
    CachedUntilEvictedOrSwept(states, steps, i, j, device);
    HashStays(states, steps, i, j, device);
  }

  lemma {:induction false} ClockRuns(states: seq<State>, steps: seq<Step>, j: nat)
    requires IsRun(states, steps) && j < |states|
    ensures forall k :: 0 <= k < j ==> steps[k].now <= states[j].clock
  {
    if j > 0 {
      ClockRuns(states, steps, j - 1);
    }
  }

  lemma {:induction false} HashStays(states: seq<State>, steps: seq<Step>, i: nat, j: nat, device: Device)
    requires IsRun(states, steps) && i <= j < |states| && device in states[i].cached
    requires forall k :: i <= k < j && steps[k].Keep? ==> steps[k].device != device
    ensures device in states[j].cached ==> states[j].cached[device].hash == states[i].cached[device].hash
    decreases j
  {
    if i < j {
      HashStays(states, steps, i, j - 1, device);
    }
  }
}
