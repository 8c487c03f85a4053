/** The gateway's bounded cache of the phones' VTOP sessions, and one page fetch against it. */
module SessionCache {
  import opened Options
  import opened Lists

  /** Milliseconds, as the clocks here count. */
  const SESSION_KEEP := 6 * 3600 * 1000
  const MAX_SESSIONS := 20_000

  const NEED_SESSION := 428

  type Device = string

  datatype Kept = Kept(hash: nat, session: string, account: Option<string>, at: int)

  /** What a request says of its session. */
  datatype PageRequest = PageRequest(sessionHash: nat, session: Option<string>, account: Option<string>)

  // ---- the unbounded map the cache stands for ----

  /** `latest`: the last session each device was kept with, and when it was last used. */
  datatype State = State(cached: map<Device, Kept>, latest: map<Device, Kept>, clock: int)

  datatype Step =
    | Keep(device: Device, hash: nat, session: string, account: Option<string>, evicted: Option<Device>, now: int)
    | Hit(device: Device, hash: nat, now: int)
    | Miss(device: Device, hash: nat, now: int)
    | Sweep(now: int)

  /** Not used for longer than sessions are kept. */
  predicate IsStale(kept: Kept, now: int) {
    now - kept.at > SESSION_KEEP
  }

  predicate IsOldest(cached: map<Device, Kept>, device: Device) {
    device in cached && forall d <- cached :: cached[device].at <= cached[d].at
  }

  /** A device is forgotten only to make room for a new one, and only one used longest ago. */
  predicate RightEviction(cached: map<Device, Kept>, device: Device, evicted: Option<Device>) {
    if |cached| >= MAX_SESSIONS && device !in cached
    then evicted.Some? && IsOldest(cached, evicted.value)
    else evicted.None?
  }

  predicate IsHit(cached: map<Device, Kept>, device: Device, hash: nat, now: int) {
    device in cached && cached[device].hash == hash && !IsStale(cached[device], now)
  }

  predicate Enabled(s: State, step: Step) {
    && s.clock <= step.now
    && match step
       case Keep(device, _, _, _, evicted, _) => RightEviction(s.cached, device, evicted)
       case Hit(device, hash, now) => IsHit(s.cached, device, hash, now)
       case Miss(device, hash, now) => !IsHit(s.cached, device, hash, now)
       case Sweep(_) => true
  }

  function Evict(cached: map<Device, Kept>, evicted: Option<Device>): map<Device, Kept> {
    if evicted.Some? then cached - {evicted.value} else cached
  }

  function Swept(cached: map<Device, Kept>, now: int): map<Device, Kept> {
    map d | d in cached && now - cached[d].at < SESSION_KEEP :: cached[d]
  }

  function Next(s: State, step: Step): State
    requires Enabled(s, step)
  {
    match step
    case Keep(device, hash, session, account, evicted, now) =>
      var kept := Kept(hash, session, account, now);
      State(Evict(s.cached, evicted)[device := kept], s.latest[device := kept], now)
    case Hit(device, _, now) =>
      var kept := s.cached[device].(at := now);
      State(s.cached[device := kept], s.latest[device := kept], now)
    case Miss(_, _, now) => s.(clock := now)
    case Sweep(now) => s.(cached := Swept(s.cached, now), clock := now)
  }

  ghost predicate IsRun(states: seq<State>, steps: seq<Step>) {
    && |states| == |steps| + 1 && states[0].cached == map[] && states[0].latest == map[]
    && forall i :: 0 <= i < |steps| ==> Enabled(states[i], steps[i]) && states[i + 1] == Next(states[i], steps[i])
  }

  predicate Invariant(s: State) {
    && |s.cached| <= MAX_SESSIONS
    && (forall d <- s.cached :: d in s.latest && s.latest[d] == s.cached[d])
    && forall d <- s.latest :: s.latest[d].at <= s.clock
  }

  lemma EvictedLeavesRoom(cached: map<Device, Kept>, device: Device, evicted: Option<Device>, kept: Kept)
    requires |cached| <= MAX_SESSIONS && RightEviction(cached, device, evicted)
    ensures |Evict(cached, evicted)[device := kept]| <= MAX_SESSIONS
  {
    var left := Evict(cached, evicted);
    if evicted.Some? {
      assert left.Keys == cached.Keys - {evicted.value};
      assert |left.Keys| == |cached.Keys| - 1;
    }
    assert left[device := kept].Keys == left.Keys + {device};
  }

  lemma StepKeepsInvariant(s: State, step: Step)
    requires Invariant(s) && Enabled(s, step)
    ensures Invariant(Next(s, step))
  {
    match step
    case Keep(device, hash, session, account, evicted, now) =>
      EvictedLeavesRoom(s.cached, device, evicted, Kept(hash, session, account, now));
    case Hit(device, hash, now) =>
      assert Next(s, step).cached.Keys == s.cached.Keys;
    case Sweep(now) =>
      FewerKeys(Swept(s.cached, now).Keys, s.cached.Keys);
    case Miss(_, _, _) =>
  }

  lemma {:induction false} FewerKeys(a: set<Device>, b: set<Device>)
    requires a <= b
    ensures |a| <= |b|
  {
    if d :| d in a {
      FewerKeys(a - {d}, b - {d});
    }
  }

  lemma {:induction false} RunKeepsInvariant(states: seq<State>, steps: seq<Step>, i: nat)
    requires IsRun(states, steps) && i < |states|
    ensures Invariant(states[i])
  {
    if i > 0 {
      RunKeepsInvariant(states, steps, i - 1);
      StepKeepsInvariant(states[i - 1], steps[i - 1]);
    }
  }

  /** The session a device was last kept with, as the run's own steps say, and when it was last
    * kept or used. */
  function LastKept(steps: seq<Step>, i: nat, device: Device): Option<Kept>
    requires i <= |steps|
  {
    if i == 0 then None
    else
      match steps[i - 1]
      case Keep(d, hash, session, account, _, now) =>
        if d == device then Some(Kept(hash, session, account, now)) else LastKept(steps, i - 1, device)
      case Hit(d, _, now) =>
        var before := LastKept(steps, i - 1, device);
        if d == device && before.Some? then Some(before.value.(at := now)) else before
      case _ => LastKept(steps, i - 1, device)
  }

  lemma {:induction false} LatestIsLastKept(states: seq<State>, steps: seq<Step>, i: nat, device: Device)
    requires IsRun(states, steps) && i < |states|
    ensures Lookup(states[i].latest, device) == LastKept(steps, i, device)
  {
    if i > 0 {
      LatestIsLastKept(states, steps, i - 1, device);
      RunKeepsInvariant(states, steps, i - 1);
    }
  }

  // ---- main results ----

  /** Over every run the cache never outgrows its bound, and a request with only a hash is
    * served exactly the session and account its device was last kept with, used within six
    * hours. */
  lemma HitsAreLatest(states: seq<State>, steps: seq<Step>, i: nat)
    requires IsRun(states, steps) && i < |steps|
    ensures |states[i].cached| <= MAX_SESSIONS
    ensures steps[i].Hit? ==>
              var step, last := steps[i], LastKept(steps, i, steps[i].device);
              && last.Some? && states[i].cached[step.device] == last.value
              && last.value.hash == step.hash && step.now - last.value.at <= 6 * 3600 * 1000
  {
    RunKeepsInvariant(states, steps, i);
    if steps[i].Hit? {
      LatestIsLastKept(states, steps, i, steps[i].device);
    }
  }

  /** A device just kept is present, with what it was kept with; others stay as they were but
    * for one evicted, which nobody used longer ago than. */
  lemma KeepEvictsLeastRecent(states: seq<State>, steps: seq<Step>, i: nat, d: Device)
    requires IsRun(states, steps) && i < |steps| && steps[i].Keep?
    ensures var s, step, t := states[i], steps[i], states[i + 1];
            && step.device in t.cached
            && t.cached[step.device] == Kept(step.hash, step.session, step.account, step.now)
            && (d in t.cached && d != step.device ==> d in s.cached && t.cached[d] == s.cached[d])
            && (d in s.cached && d !in t.cached ==>
                  && step.evicted == Some(d) && |s.cached| == MAX_SESSIONS && step.device !in s.cached
                  && forall e <- t.cached :: s.cached[d].at <= t.cached[e].at)
  {
    RunKeepsInvariant(states, steps, i);
    RunKeepsInvariant(states, steps, i + 1);
  }

  /** A sweep drops what was not used for six hours, and nothing else. */
  lemma SweepDropsUnused(states: seq<State>, steps: seq<Step>, i: nat, d: Device)
    requires IsRun(states, steps) && i < |steps| && steps[i].Sweep?
    ensures Lookup(states[i + 1].cached, d) ==
              match LastKept(steps, i, d)
              case None => None
              case Some(kept) =>
                if steps[i].now - kept.at < 6 * 3600 * 1000 then Lookup(states[i].cached, d) else None
  {
    RunKeepsInvariant(states, steps, i);
    LatestIsLastKept(states, steps, i, d);
  }

  /** A device is missing from the cache only once it was evicted or swept since it was last
    * kept or used. */
  lemma {:induction false} CachedUntilEvictedOrSwept(states: seq<State>, steps: seq<Step>, i: nat, j: nat, d: Device)
    requires IsRun(states, steps) && i <= j < |states| && d in states[i].cached
    requires forall k :: i <= k < j ==> !(steps[k].Keep? && steps[k].evicted == Some(d))
    requires forall k :: i <= k < j && steps[k].Sweep? ==> steps[k].now - states[i].cached[d].at < SESSION_KEEP
    ensures d in states[j].cached && states[i].cached[d].at <= states[j].cached[d].at
    decreases j
  {
    if i < j {
      CachedUntilEvictedOrSwept(states, steps, i, j - 1, d);
      RunKeepsInvariant(states, steps, j - 1);
    }
  }

  // ---- the session of a request ----

  /** The session a request is fetched on: the one it carries, when it reads and has the hash
    * named, or the device's kept one with that hash. */
  function FoundSession(entry: Option<Kept>, page: PageRequest, hashOf: string -> nat,
                        readJson: string -> Option<string>, now: int):
    (found: Option<(string, Option<string>)>)
  {
    match page.session
    case Some(json) =>
      if hashOf(json) != page.sessionHash || readJson(json).None? then None
      else Some((readJson(json).value, page.account))
    case None =>
      if entry.None? || entry.value.hash != page.sessionHash || IsStale(entry.value, now) then None
      else Some((entry.value.session, entry.value.account))
  }

  // ---- the gateway ----

  class Gateway {
    var sessions: map<Device, Kept>
    ghost var latest: map<Device, Kept>
    ghost var clock: int
    /** The session hash, and the reading of a session's JSON: not this model's subject. */
    const hashOf: string -> nat
    const readJson: string -> Option<string>

    constructor (hashOf: string -> nat, readJson: string -> Option<string>)
      ensures this.hashOf == hashOf && this.readJson == readJson && Now() == State(map[], map[], 0)
    {
      this.hashOf, this.readJson := hashOf, readJson;
      sessions, latest, clock := map[], map[], 0;
    }

    ghost function Now(): State
      reads this
    {
      State(sessions, latest, clock)
    }

    method KeepSession(device: Device, hash: nat, session: string, account: Option<string>, now: int)
      returns (ghost evicted: Option<Device>)
      requires clock <= now
      modifies this`sessions, this`latest, this`clock
      ensures Enabled(old(Now()), Keep(device, hash, session, account, evicted, now))
      ensures Now() == Next(old(Now()), Keep(device, hash, session, account, evicted, now))
    {
      evicted := None;
      if |sessions| >= MAX_SESSIONS && device !in sessions {
        // A full cache gives up its oldest entry.
        var oldest := Stalest();
        evicted := Some(oldest);
        sessions := sessions - {oldest};
      }
      sessions := sessions[device := Kept(hash, session, account, now)];
      latest, clock := latest[device := Kept(hash, session, account, now)], now;
    }

    method Stalest() returns (oldest: Device)
      requires sessions != map[]
      ensures IsOldest(sessions, oldest)
    {
      var todo := sessions.Keys;
      assert todo != {} by {
        assert sessions.Keys == {} ==> sessions == map[];
      }
      oldest :| oldest in todo;
      todo := todo - {oldest};
      while todo != {}
        invariant oldest in sessions && todo <= sessions.Keys
        invariant forall d <- sessions.Keys - todo :: sessions[oldest].at <= sessions[d].at
        decreases |todo|
      {
        var d :| d in todo;
        if sessions[d].at < sessions[oldest].at {
          oldest := d;
        }
        todo := todo - {d};
      }
    }

    /** The session to fetch on, with its account: the one sent, which is kept, or the device's kept
      * one if the request names its hash. */
    method Session(device: Device, page: PageRequest, now: int)
      returns (found: Option<(string, Option<string>)>, ghost step: Option<Step>)
      requires clock <= now
      modifies this`sessions, this`latest, this`clock
      ensures step.Some? ==> Enabled(old(Now()), step.value) && Now() == Next(old(Now()), step.value)
      ensures step.Some? ==> step.value.now == now
      ensures step.None? ==> Now() == old(Now())
      ensures step.None? <==> page.session.Some? && found.None?
      ensures found == FoundSession(Lookup(old(sessions), device), page, hashOf, readJson, now)
      ensures page.session.Some? && found.Some? ==>
                && step.Some? && step.value.Keep? && step.value.device == device && step.value.hash == page.sessionHash
                && step.value.session == found.value.0 && step.value.account == found.value.1
      ensures page.session.None? ==>
                step == Some(if found.Some? then Hit(device, page.sessionHash, now)
                             else Miss(device, page.sessionHash, now))
    {
      if page.session.Some? {
        if hashOf(page.session.value) != page.sessionHash {
          return None, None;
        }
        var value := readJson(page.session.value);
        if value.None? {
          return None, None;
        }
        ghost var evicted := KeepSession(device, page.sessionHash, value.value, page.account, now);
        step := Some(Keep(device, page.sessionHash, value.value, page.account, evicted, now));
        return Some((value.value, page.account)), step;
      }
      clock := now;
      if device !in sessions {
        return None, Some(Miss(device, page.sessionHash, now));
      }
      var kept := sessions[device];
      if kept.hash != page.sessionHash || now - kept.at > SESSION_KEEP {
        return None, Some(Miss(device, page.sessionHash, now));
      }
      sessions := sessions[device := kept.(at := now)];
      latest := latest[device := kept.(at := now)];
      step := Some(Hit(device, page.sessionHash, now));
      return Some((kept.session, kept.account)), step;
    }

    method SweepStale(now: int)
      requires clock <= now
      modifies this`sessions, this`clock
      ensures Now() == Next(old(Now()), Sweep(now))
      ensures forall d :: Lookup(sessions, d) ==
                if d in old(sessions) && now - old(sessions)[d].at < 6 * 3600 * 1000
                then Some(old(sessions)[d]) else None
    {
      sessions := map d | d in sessions && now - sessions[d].at < SESSION_KEEP :: sessions[d];
      clock := now;
    }
  }
}
