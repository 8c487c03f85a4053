/** Engine sign-ins waiting on a mailbox for a code: a queue for each waiter key, and calls
  * parked until a push on their key or their deadline. The stretches of `awaitCode` between
  * its awaits are the steps; a call between two of them is a frame. */
module MailWaiters {
  import opened Options
  import opened Lists
  import opened Numbers

  const MAX_WAIT_SECS := 30
  const WAITER_TTL_SECS := 300

  datatype Waiter = Waiter(ownerHash: string, since: int, expiresAt: int, results: seq<string>)

  /** A suspended `awaitCode`: before it registers, before it first looks, parked on a wake-up
    * it put in `wake` under a token, or to go on from that park. */
  datatype Frame =
    | Called(key: string, ownerHash: string, since: int, waitSecs: int)
    | Registered(key: string, waitSecs: int)
    | Parked(key: string, deadline: int, token: nat)
    | Woken(key: string, deadline: int, token: nat)

  /** Whose registration a token is: the call and its key. */
  datatype Home = Home(f: nat, key: string)

  /** `homes`: the tokens given out. `answers`: what the calls that returned gave. */
  datatype State = State(
    waiters: map<string, Waiter>,
    wake: map<string, seq<nat>>,
    frames: map<nat, Frame>,
    nextToken: nat,
    homes: map<nat, Home>,
    answers: map<nat, Option<string>>)

  datatype Step =
    | Call(f: nat, key: string, ownerHash: string, since: int, waitSecs: int)
    | Register(f: nat, now: int)
    | Enter(f: nat, now: int)
    | TimeOut(f: nat, now: int)
    | Resume(f: nat, now: int)
    | Push(key: string, sealed: string)
    | Purge(now: int)
    | Remove

  const INITIAL := State(map[], map[], map[], 0, map[], map[])

  function Tokens(wake: map<string, seq<nat>>, key: string): seq<nat> {
    if key in wake then wake[key] else []
  }

  function TokensBut(tokens: seq<nat>, token: nat): (left: seq<nat>)
    ensures forall t :: t in left <==> t in tokens && t != token
  {
    if tokens == [] then []
    else (if tokens[0] == token then [] else [tokens[0]]) + TokensBut(tokens[1..], token)
  }

  predicate Enabled(s: State, step: Step) {
    match step
    case Call(f, _, _, _, _) => f !in s.frames && f !in s.answers
    case Register(f, _) => f in s.frames && s.frames[f].Called?
    case Enter(f, _) => f in s.frames && s.frames[f].Registered?
    case TimeOut(f, now) => f in s.frames && s.frames[f].Parked? && now >= s.frames[f].deadline
    case Resume(f, _) => f in s.frames && s.frames[f].Woken?
    case Push(_, _) => true
    case Purge(_) => true
    case Remove => true
  }

  /** One turn of the loop: the oldest code, or nothing after the deadline, or parked. */
  function Look(s: State, f: nat, key: string, deadline: int, now: int): State {
    if key in s.waiters && s.waiters[key].results != [] then
      var waiter := s.waiters[key];
      s.(waiters := s.waiters[key := waiter.(results := waiter.results[1..])],
         frames := s.frames - {f}, answers := s.answers[f := Some(waiter.results[0])])
    else if deadline <= now then
      s.(frames := s.frames - {f}, answers := s.answers[f := None])
    else
      s.(wake := s.wake[key := Tokens(s.wake, key) + [s.nextToken]],
         frames := s.frames[f := Parked(key, deadline, s.nextToken)], nextToken := s.nextToken + 1,
         homes := s.homes[s.nextToken := Home(f, key)])
  }

  /** The call's own registration taken back, and no other. */
  function Unregistered(wake: map<string, seq<nat>>, key: string, token: nat): map<string, seq<nat>> {
    var left := TokensBut(Tokens(wake, key), token);
    if left == [] then wake - {key} else wake[key := left]
  }

  function Next(s: State, step: Step): State
    requires Enabled(s, step)
  {
    match step
    case Call(f, key, ownerHash, since, waitSecs) =>
      s.(frames := s.frames[f := Called(key, ownerHash, since, waitSecs)])
    case Register(f, now) =>
      var c := s.frames[f];
      var after := s.(frames := s.frames[f := Registered(c.key, c.waitSecs)]);
      if c.key in s.waiters then after
      else after.(waiters := s.waiters[c.key := Waiter(c.ownerHash, c.since, now + WAITER_TTL_SECS, [])])
    case Enter(f, now) => Look(s, f, s.frames[f].key, now + Min(s.frames[f].waitSecs, MAX_WAIT_SECS), now)
    case TimeOut(f, _) => s.(frames := s.frames[f := Woken(s.frames[f].key, s.frames[f].deadline, s.frames[f].token)])
    case Resume(f, now) =>
      var w := s.frames[f];
      Look(s.(wake := Unregistered(s.wake, w.key, w.token)), f, w.key, w.deadline, now)
    case Push(key, sealed) =>
      if key !in s.waiters then s
      else
        var waiter := s.waiters[key];
        s.(waiters := s.waiters[key := waiter.(results := waiter.results + [sealed])],
           wake := s.wake - {key}, frames := Awoken(s.frames, Tokens(s.wake, key)))
    case Purge(now) => s.(waiters := map k | k in s.waiters && s.waiters[k].expiresAt > now :: s.waiters[k])
    // The tables go; parked calls stay parked.
    case Remove => s.(waiters := map[])
  }

  /** The frames parked on these tokens go on. */
  function Awoken(frames: map<nat, Frame>, tokens: seq<nat>): map<nat, Frame> {
    map f | f in frames ::
      if frames[f].Parked? && frames[f].token in tokens then Woken(frames[f].key, frames[f].deadline, frames[f].token)
      else frames[f]
  }

  ghost predicate IsRun(states: seq<State>, steps: seq<Step>) {
    && |states| == |steps| + 1 && states[0] == INITIAL
    && forall i :: 0 <= i < |steps| ==> Enabled(states[i], steps[i]) && states[i + 1] == Next(states[i], steps[i])
  }

  // ---- what every run keeps ----

  predicate HasToken(frame: Frame) {
    frame.Parked? || frame.Woken?
  }

  /** A token in use is at home with the call that took it. */
  predicate TokensAtHome(frames: map<nat, Frame>, homes: map<nat, Home>) {
    forall f <- frames :: HasToken(frames[f]) ==>
      frames[f].token in homes && homes[frames[f].token] == Home(f, frames[f].key)
  }

  /** Every parked call is registered. */
  predicate ParkedAreRegistered(wake: map<string, seq<nat>>, frames: map<nat, Frame>) {
    forall f <- frames :: frames[f].Parked? ==> frames[f].token in Tokens(wake, frames[f].key)
  }

  /** Tokens are registered on their own key only. */
  predicate OnOwnKey(wake: map<string, seq<nat>>, homes: map<nat, Home>) {
    forall k <- wake, t <- wake[k] :: t in homes && homes[t].key == k
  }

  predicate TokensBelow(homes: map<nat, Home>, nextToken: nat) {
    forall t <- homes :: t < nextToken
  }

  predicate Registrations(wake: map<string, seq<nat>>, frames: map<nat, Frame>, homes: map<nat, Home>, nextToken: nat) {
    && TokensAtHome(frames, homes) && ParkedAreRegistered(wake, frames)
    && OnOwnKey(wake, homes) && TokensBelow(homes, nextToken)
  }

  /** Nobody is registered on a key that has codes queued. */
  predicate NoLostWakeUp(s: State) {
    forall k <- s.waiters :: s.waiters[k].results != [] ==> k !in s.wake
  }

  ghost predicate Invariant(s: State) {
    && Registrations(s.wake, s.frames, s.homes, s.nextToken) && NoLostWakeUp(s)
    && (forall f <- s.frames :: f !in s.answers)
  }

  /** Registrations outlive a change of frames that gives nobody a new token or park. */
  lemma RegistrationsSurvive(wake: map<string, seq<nat>>, frames: map<nat, Frame>, after: map<nat, Frame>,
                             homes: map<nat, Home>, nextToken: nat)
    requires Registrations(wake, frames, homes, nextToken)
    requires forall f <- after :: HasToken(after[f]) ==>
               && f in frames && HasToken(frames[f])
               && frames[f].token == after[f].token && frames[f].key == after[f].key
               && (after[f].Parked? ==> frames[f].Parked?)
    ensures Registrations(wake, after, homes, nextToken)
  {
  }

  lemma LookKeeps(s: State, f: nat, key: string, deadline: int, now: int)
    requires NoLostWakeUp(s) && f in s.frames
    requires forall g <- s.frames :: g !in s.answers
    requires Registrations(s.wake, s.frames - {f}, s.homes, s.nextToken)
    ensures Invariant(Look(s, f, key, deadline, now))
  {
    if !(key in s.waiters && s.waiters[key].results != []) && deadline > now {
      ParkingRegisters(s.wake, s.frames, s.homes, s.nextToken, f, key, deadline);
    }
  }

  lemma ParkingRegisters(wake: map<string, seq<nat>>, frames: map<nat, Frame>, homes: map<nat, Home>, nextToken: nat,
                         f: nat, key: string, deadline: int)
    requires f in frames && Registrations(wake, frames - {f}, homes, nextToken)
    ensures Registrations(wake[key := Tokens(wake, key) + [nextToken]], frames[f := Parked(key, deadline, nextToken)],
                          homes[nextToken := Home(f, key)], nextToken + 1)
  {
    var parked, others := frames[f := Parked(key, deadline, nextToken)], frames - {f};
    var more, later := wake[key := Tokens(wake, key) + [nextToken]], homes[nextToken := Home(f, key)];
    assert forall g <- parked :: g != f ==> g in others && others[g] == parked[g];
    forall k, t | k in more && t in more[k] ensures t in later && later[t].key == k {
      if t in Tokens(wake, k) {
        assert k in wake && t in wake[k] && t in homes && t < nextToken;
      }
    }
  }

  lemma EnterKeeps(s: State, f: nat, now: int)
    requires Invariant(s) && Enabled(s, Enter(f, now))
    ensures Invariant(Next(s, Enter(f, now)))
  {
    var key, deadline := s.frames[f].key, now + Min(s.frames[f].waitSecs, MAX_WAIT_SECS);
    var t := Look(s, f, key, deadline, now);
    assert Invariant(t) by {
      RegistrationsSurvive(s.wake, s.frames, s.frames - {f}, s.homes, s.nextToken);
      LookKeeps(s, f, key, deadline, now);
    }
    assert t == Next(s, Enter(f, now));
  }

  lemma ResumeKeeps(s: State, f: nat, now: int)
    requires Invariant(s) && Enabled(s, Resume(f, now))
    ensures Invariant(Next(s, Resume(f, now)))
  {
    var w := s.frames[f];
    var left := s.(wake := Unregistered(s.wake, w.key, w.token));
    var others := s.frames - {f};
    forall g | g in others && others[g].Parked? ensures others[g].token in Tokens(left.wake, others[g].key) {
      assert s.frames[g].token in Tokens(s.wake, s.frames[g].key) && s.frames[g].token != w.token;
    }
    assert forall k <- left.wake, t <- left.wake[k] :: t in Tokens(s.wake, k);
    LookKeeps(left, f, w.key, w.deadline, now);
  }

  lemma PushKeeps(s: State, key: string, sealed: string)
    requires Invariant(s)
    ensures Invariant(Next(s, Push(key, sealed)))
  {
    var t := Next(s, Push(key, sealed));
    if key in s.waiters {
      forall f | f in t.frames && t.frames[f].Parked? ensures t.frames[f].token in Tokens(t.wake, t.frames[f].key) {
        assert s.frames[f].token in Tokens(s.wake, s.frames[f].key);
      }
    }
  }

  lemma QuietStepKeeps(s: State, step: Step)
    requires Invariant(s) && Enabled(s, step) && (step.Call? || step.TimeOut? || step.Purge? || step.Remove?)
    ensures Invariant(Next(s, step))
  {
    RegistrationsSurvive(s.wake, s.frames, Next(s, step).frames, s.homes, s.nextToken);
  }

  lemma NewWaiterKeeps(s: State, key: string, waiter: Waiter)
    requires NoLostWakeUp(s) && waiter.results == []
    ensures NoLostWakeUp(s.(waiters := s.waiters[key := waiter]))
  {
  }

  lemma FrameGoesOn(s: State, f: nat, key: string, waitSecs: int)
    requires Invariant(s) && f in s.frames
    ensures Invariant(s.(frames := s.frames[f := Registered(key, waitSecs)]))
  {
    RegistrationsSurvive(s.wake, s.frames, s.frames[f := Registered(key, waitSecs)], s.homes, s.nextToken);
  }

  lemma RegisterKeeps(s: State, f: nat, now: int)
    requires Invariant(s) && Enabled(s, Register(f, now))
    ensures Invariant(Next(s, Register(f, now)))
  {
    var c := s.frames[f];
    FrameGoesOn(s, f, c.key, c.waitSecs);
    if c.key !in s.waiters {
      NewWaiterKeeps(s.(frames := s.frames[f := Registered(c.key, c.waitSecs)]), c.key,
                     Waiter(c.ownerHash, c.since, now + WAITER_TTL_SECS, []));
    }
  }

  lemma StepKeepsInvariant(s: State, step: Step)
    requires Invariant(s) && Enabled(s, step)
    ensures Invariant(Next(s, step))
  {
    match step
    case Enter(f, now) => EnterKeeps(s, f, now);
    case Resume(f, now) => ResumeKeeps(s, f, now);
    case Push(key, sealed) => PushKeeps(s, key, sealed);
    case Register(f, now) => RegisterKeeps(s, f, now);
    case _ => QuietStepKeeps(s, step);
  }

  lemma {:induction false} RunKeepsInvariant(states: seq<State>, steps: seq<Step>, i: nat)
    requires IsRun(states, steps) && i < |states|
    ensures Invariant(states[i])
  {
    if i > 0 {
      RunKeepsInvariant(states, steps, i - 1);
      StepKeepsInvariant(states[i - 1], steps[i - 1]);
    }
  }

  // ---- main results ----

  /** No wake-up is lost: where codes are queued nobody is parked, in every interleaving. */
  lemma NobodyParkedOnCodes(states: seq<State>, steps: seq<Step>, i: nat, f: nat)
    requires IsRun(states, steps) && i < |states|
    requires f in states[i].frames && states[i].frames[f].Parked?
    ensures var key := states[i].frames[f].key;
            key in states[i].waiters ==> states[i].waiters[key].results == []
  {
    RunKeepsInvariant(states, steps, i);
  }

  /** The codes pushed for a key since its waiter registered, as the run's own steps say. */
  function PushedSince(states: seq<State>, steps: seq<Step>, i: nat, key: string): seq<string>
    requires i < |states| && |states| == |steps| + 1
  {
    if i == 0 || key !in states[i - 1].waiters then []
    else
      var before := PushedSince(states, steps, i - 1, key);
      if steps[i - 1].Push? && steps[i - 1].key == key then before + [steps[i - 1].sealed] else before
  }

  /** The code a step returns to a call waiting on a key, if it does. */
  function HandedIn(s: State, step: Step, t: State, key: string): seq<string> {
    if (step.Enter? || step.Resume?) && step.f in s.frames && !s.frames[step.f].Called? && s.frames[step.f].key == key
       && step.f in t.answers && t.answers[step.f].Some?
    then [t.answers[step.f].value] else []
  }

  /** The codes returned to calls waiting on a key since its waiter registered. */
  function HandedSince(states: seq<State>, steps: seq<Step>, i: nat, key: string): seq<string>
    requires i < |states| && |states| == |steps| + 1
  {
    if i == 0 || key !in states[i - 1].waiters then []
    else HandedSince(states, steps, i - 1, key) + HandedIn(states[i - 1], steps[i - 1], states[i], key)
  }

  /** One step of a waiter: what it hands out and then queues is what was queued and is pushed. */
  lemma StepConserves(s: State, step: Step, key: string)
    requires Invariant(s) && Enabled(s, step) && key in s.waiters && key in Next(s, step).waiters
    ensures HandedIn(s, step, Next(s, step), key) + Next(s, step).waiters[key].results ==
              s.waiters[key].results + if step.Push? && step.key == key then [step.sealed] else []
  {
    match step
    case Enter(f, now) =>
      LookConserves(s, f, s.frames[f].key, now + Min(s.frames[f].waitSecs, MAX_WAIT_SECS), now, key);
    case Resume(f, now) =>
      var w := s.frames[f];
      LookConserves(s.(wake := Unregistered(s.wake, w.key, w.token)), f, w.key, w.deadline, now, key);
    case _ =>
  }

  lemma LookConserves(s: State, f: nat, key: string, deadline: int, now: int, other: string)
    requires f in s.frames && f !in s.answers && other in s.waiters
    ensures var t := Look(s, f, key, deadline, now);
            && other in t.waiters
            && (if key == other && f in t.answers && t.answers[f].Some? then [t.answers[f].value] else [])
                 + t.waiters[other].results == s.waiters[other].results
  {
    var results := s.waiters[other].results;
    assert results != [] ==> results == [results[0]] + results[1..];
  }

  lemma RegistersEmpty(s: State, step: Step, key: string)
    requires Enabled(s, step) && key !in s.waiters && key in Next(s, step).waiters
    ensures Next(s, step).waiters[key].results == []
  {
  }

  /** While a waiter lives, the codes its calls returned, followed by those queued, equal the
    * codes the run's steps pushed for it, in order and each once. */
  lemma {:induction false} CodesAreConserved(states: seq<State>, steps: seq<Step>, i: nat, key: string)
    requires IsRun(states, steps) && i < |states| && key in states[i].waiters
    ensures HandedSince(states, steps, i, key) + states[i].waiters[key].results == PushedSince(states, steps, i, key)
  {
    if i > 0 {
      var s, step := states[i - 1], steps[i - 1];
      if key in s.waiters {
        RunKeepsInvariant(states, steps, i - 1);
        CodesAreConserved(states, steps, i - 1, key);
        StepConserves(s, step, key);
        ConservedOneMore(HandedSince(states, steps, i - 1, key), HandedIn(s, step, states[i], key),
                         s.waiters[key].results, states[i].waiters[key].results,
                         PushedSince(states, steps, i - 1, key),
                         if step.Push? && step.key == key then [step.sealed] else []);
      } else {
        RegistersEmpty(s, step, key);
      }
    }
  }

  lemma ConservedOneMore(handed: seq<string>, more: seq<string>, queued: seq<string>, left: seq<string>,
                         pushed: seq<string>, added: seq<string>)
    requires handed + queued == pushed && more + left == queued + added
    ensures (handed + more) + left == pushed + added
  {
    assert (handed + more) + left == handed + (more + left);
    assert handed + (queued + added) == (handed + queued) + added;
  }

  /** A push adds its code to the waiter's queue and wakes every call parked on its key, and
    * nothing else; without a waiter it does nothing. */
  lemma PushQueuesAndWakes(s: State, key: string, sealed: string)
    requires Invariant(s)
    ensures var t := Next(s, Push(key, sealed));
            if key !in s.waiters then t == s
            else
              && t == s.(waiters := t.waiters, wake := t.wake, frames := t.frames)
              && t.waiters == s.waiters[key := s.waiters[key].(results := s.waiters[key].results + [sealed])]
              && t.frames.Keys == s.frames.Keys
              && forall f <- s.frames ::
                   if s.frames[f].Parked? && s.frames[f].key == key
                   then t.frames[f] == Woken(key, s.frames[f].deadline, s.frames[f].token)
                   else t.frames[f] == s.frames[f]
  {
    if key in s.waiters {
      forall f | f in s.frames && s.frames[f].Parked? && s.frames[f].token in Tokens(s.wake, key)
        ensures s.frames[f].key == key
      {
        assert key in s.wake && s.frames[f].token in s.wake[key];
      }
    }
  }

  /** A call that registers makes an empty waiter with five minutes to live where its key has
    * none, and leaves every waiter there is. */
  lemma RegisterKeepsWaiters(s: State, f: nat, now: int)
    requires Enabled(s, Register(f, now))
    ensures var c, t := s.frames[f], Next(s, Register(f, now));
            && c.key in t.waiters && (forall k <- s.waiters :: k in t.waiters && t.waiters[k] == s.waiters[k])
            && (forall k <- t.waiters :: k in s.waiters || k == c.key)
            && (c.key !in s.waiters ==> t.waiters[c.key] == Waiter(c.ownerHash, c.since, now + 300, []))
            && f in t.frames && t.frames[f] == Registered(c.key, c.waitSecs)
  {
  }

  /** A step leaves every parked call parked and registered, unless it is that call's own
    * time-out or a push on its key: no clean-up drops another's registration. */
  lemma OthersStayRegistered(s: State, step: Step, g: nat)
    requires Invariant(s) && Enabled(s, step)
    requires g in s.frames && s.frames[g].Parked?
    requires !(step.Push? && step.key == s.frames[g].key) && !(step.TimeOut? && step.f == g)
    ensures g in Next(s, step).frames && Next(s, step).frames[g] == s.frames[g]
    ensures s.frames[g].token in Tokens(Next(s, step).wake, s.frames[g].key)
  {
    StepKeepsInvariant(s, step);
    if step.Push? && step.key in s.waiters {
      assert s.frames[g].token !in Tokens(s.wake, step.key);
    }
  }

  /** A call's answer: the oldest code queued for its key, handed out; or none, past the deadline
    * and with none queued. */
  predicate IsAnswer(s: State, t: State, f: nat, key: string, deadline: int, now: int) {
    f in t.answers &&
    match t.answers[f]
    case Some(code) =>
      && key in s.waiters && s.waiters[key].results != [] && code == s.waiters[key].results[0]
      && t.waiters == s.waiters[key := s.waiters[key].(results := s.waiters[key].results[1..])]
    case None => (key in s.waiters ==> s.waiters[key].results == []) && now >= deadline
  }

  lemma LookAnswers(s: State, f: nat, key: string, deadline: int, now: int, g: nat)
    requires g !in s.answers && g in Look(s, f, key, deadline, now).answers
    ensures f == g && IsAnswer(s, Look(s, f, key, deadline, now), f, key, deadline, now)
  {
  }

  /** A call comes back without a code only after its deadline and with none queued; with one,
    * only with the oldest queued for its key, which is then handed out. */
  lemma AnswersComeInOrder(s: State, step: Step, f: nat)
    requires Invariant(s) && Enabled(s, step)
    requires f !in s.answers && f in Next(s, step).answers
    ensures (step.Enter? || step.Resume?) && step.f == f
    ensures var deadline :=
              if step.Enter? then step.now + Min(s.frames[f].waitSecs, MAX_WAIT_SECS) else s.frames[f].deadline;
            IsAnswer(s, Next(s, step), f, s.frames[f].key, deadline, step.now)
  {
    match step
    case Enter(g, now) => LookAnswers(s, g, s.frames[g].key, now + Min(s.frames[g].waitSecs, MAX_WAIT_SECS), now, f);
    case Resume(g, now) =>
      var w := s.frames[g];
      LookAnswers(s.(wake := Unregistered(s.wake, w.key, w.token)), g, w.key, w.deadline, now, f);
    case _ =>
  }

  /** The call is waiting on a key until a deadline. */
  predicate WaitsFor(s: State, f: nat, key: string, deadline: int) {
    f in s.frames && HasToken(s.frames[f]) && s.frames[f].key == key && s.frames[f].deadline == deadline
  }

  /** A step leaves a waiting call its key and deadline, or is the turn in which it returns:
    * without a code only from its deadline on. */
  lemma StepKeepsWait(s: State, step: Step, f: nat, key: string, deadline: int)
    requires Invariant(s) && Enabled(s, step) && WaitsFor(s, f, key, deadline)
    ensures var t := Next(s, step);
            if f in t.frames then WaitsFor(t, f, key, deadline)
            else step.Resume? && step.f == f && f in t.answers && (t.answers[f].None? ==> deadline <= step.now)
  {
  }

  /** A turn of the call's own, at or after a time. */
  predicate LooksAfter(step: Step, f: nat, time: int) {
    (step.Enter? || step.Resume?) && step.f == f && time <= step.now
  }

  /** The call that began to look at step `e`: still waiting for its time, or returned, and if
    * without a code then in a turn after that time. */
  predicate WaitedOut(states: seq<State>, steps: seq<Step>, e: nat, i: nat, f: nat, key: string, deadline: int)
    requires i < |states| && i <= |steps|
  {
    if f in states[i].frames then WaitsFor(states[i], f, key, deadline)
    else
      && f in states[i].answers
      && (states[i].answers[f].None? ==> exists k :: e <= k < i && LooksAfter(steps[k], f, deadline))
  }

  lemma AnswerStays(s: State, step: Step, f: nat)
    requires Invariant(s) && Enabled(s, step) && f !in s.frames && f in s.answers
    ensures f !in Next(s, step).frames && f in Next(s, step).answers && Next(s, step).answers[f] == s.answers[f]
  {
  }

  /** A call waits as long as it asked for, up to thirty seconds: one that comes back without a
    * code comes back no sooner, in every interleaving. */
  lemma {:induction false} EmptyOnlyAfterWait(states: seq<State>, steps: seq<Step>, e: nat, i: nat, f: nat)
    requires IsRun(states, steps) && e < i < |states| && steps[e].Enter? && steps[e].f == f
    requires f in states[e].frames && states[e].frames[f].Registered?
    ensures WaitedOut(states, steps, e, i, f, states[e].frames[f].key,
                      steps[e].now + Min(states[e].frames[f].waitSecs, 30))
    decreases i
  {
    var key, deadline := states[e].frames[f].key, steps[e].now + Min(states[e].frames[f].waitSecs, 30);
    RunKeepsInvariant(states, steps, i - 1);
    if i == e + 1 {
      assert f !in states[i].frames && states[i].answers[f].None? ==> LooksAfter(steps[e], f, deadline);
    } else {
      EmptyOnlyAfterWait(states, steps, e, i - 1, f);
      if f in states[i - 1].frames {
        StepKeepsWait(states[i - 1], steps[i - 1], f, key, deadline);
        assert f !in states[i].frames && states[i].answers[f].None? ==> LooksAfter(steps[i - 1], f, deadline);
      } else {
        AnswerStays(states[i - 1], steps[i - 1], f);
      }
    }
  }

  /** A parked call timed out returns at its next turn. */
  lemma TimedOutReturns(s: State, f: nat, now: int, later: int)
    requires Enabled(s, TimeOut(f, now)) && now <= later
    ensures var t := Next(s, TimeOut(f, now));
            && t.frames.Keys == s.frames.Keys && (forall g <- s.frames :: g != f ==> t.frames[g] == s.frames[g])
            && Enabled(t, Resume(f, later)) && f in Next(t, Resume(f, later)).answers
            && f !in Next(t, Resume(f, later)).frames
  {
  }

  // ---- the object ----

  class Mailbox {
    var waiters: map<string, Waiter>
    var wake: map<string, seq<nat>>
    /** The suspended calls, as the runtime keeps them. */
    var frames: map<nat, Frame>
    var nextToken: nat
    ghost var homes: map<nat, Home>
    ghost var answers: map<nat, Option<string>>

    constructor ()
      ensures Now() == INITIAL
    {
      waiters, wake, frames, nextToken := map[], map[], map[], 0;
      homes, answers := map[], map[];
    }

    ghost function Now(): State
      reads this
    {
      State(waiters, wake, frames, nextToken, homes, answers)
    }

    /** Drops the waiters whose time is over and gives the rest. */
    method Waiters(now: int) returns (live: map<string, Waiter>)
      modifies this
      ensures Now() == Next(old(Now()), Purge(now))
      ensures live == waiters && forall k <- live :: live[k].expiresAt > now
      ensures forall k <- old(waiters) :: old(waiters)[k].expiresAt > now ==> k in live && live[k] == old(waiters)[k]
      ensures forall k <- live :: k in old(waiters)
    {
      waiters := map k | k in waiters && waiters[k].expiresAt > now :: waiters[k];
      live := waiters;
    }

    /** Wipes the tables. Calls stay parked: they go on at their deadline, or sooner when a later
      * call registers the key again and a code is pushed. */
    method Wipe()
      modifies this
      ensures Now() == Next(old(Now()), Remove)
    {
      waiters := map[];
    }

    /** Queues a code for its key and lets every call parked on that key go on. */
    method WaiterResult(key: string, sealed: string)
      modifies this
      ensures Now() == Next(old(Now()), Push(key, sealed))
      ensures key !in old(waiters) ==> Now() == old(Now())
      ensures key in old(waiters) ==>
                waiters == old(waiters)[key := old(waiters)[key].(results := old(waiters)[key].results + [sealed])]
      ensures key in old(waiters) && Invariant(old(Now())) ==>
                && frames.Keys == old(frames).Keys
                && forall f <- old(frames) ::
                     if old(frames)[f].Parked? && old(frames)[f].key == key
                     then frames[f] == Woken(key, old(frames)[f].deadline, old(frames)[f].token)
                     else frames[f] == old(frames)[f]
    {
      if key !in waiters {
        return;
      }
      if Invariant(Now()) {
        PushQueuesAndWakes(Now(), key, sealed);
      }
      var waiter := waiters[key];
      waiters := waiters[key := waiter.(results := waiter.results + [sealed])];
      var parked := Tokens(wake, key);
      wake := wake - {key};
      WakeUp(parked);
    }

    /** Each parked call goes on. */
    method WakeUp(parked: seq<nat>)
      modifies this`frames
      ensures frames == Awoken(old(frames), parked)
    {
      ghost var before := frames;
      for i := 0 to |parked|
        invariant frames == Awoken(before, parked[..i])
      {
        assert parked[..i + 1] == parked[..i] + [parked[i]];
        frames := Awoken(frames, [parked[i]]);
      }
      assert parked[..|parked|] == parked;
    }

    /** Registers the call's waiter if new. */
    method RegisterWaiter(f: nat, now: int)
      requires Enabled(Now(), Register(f, now))
      modifies this
      ensures Now() == Next(old(Now()), Register(f, now))
      ensures var c := old(frames)[f];
              waiters == if c.key in old(waiters) then old(waiters)
                         else old(waiters)[c.key := Waiter(c.ownerHash, c.since, now + 300, [])]
    {
      var c := frames[f];
      frames := frames[f := Registered(c.key, c.waitSecs)];
      if c.key !in waiters {
        waiters := waiters[c.key := Waiter(c.ownerHash, c.since, now + WAITER_TTL_SECS, [])];
      }
    }

    /** The first turn of a call's loop. */
    method FirstLook(f: nat, now: int)
      requires Enabled(Now(), Enter(f, now))
      modifies this
      ensures Now() == Next(old(Now()), Enter(f, now))
    {
      LookOnce(f, frames[f].key, now + Min(frames[f].waitSecs, MAX_WAIT_SECS), now);
    }

    /** A later turn: takes back the call's own registration and looks again. */
    method LookAgain(f: nat, now: int)
      requires Enabled(Now(), Resume(f, now))
      modifies this
      ensures Now() == Next(old(Now()), Resume(f, now))
    {
      var w := frames[f];
      var left := TokensBut(Tokens(wake, w.key), w.token);
      if left != [] {
        wake := wake[w.key := left];
      } else {
        wake := wake - {w.key};
      }
      LookOnce(f, w.key, w.deadline, now);
    }

    method LookOnce(f: nat, key: string, deadline: int, now: int)
      modifies this
      ensures Now() == Look(old(Now()), f, key, deadline, now)
    {
      if key in waiters && waiters[key].results != [] {
        var waiter := waiters[key];
        var sealed := waiter.results[0];
        waiters := waiters[key := waiter.(results := waiter.results[1..])];
        frames, answers := frames - {f}, answers[f := Some(sealed)];
        return;
      }
      if deadline - now <= 0 {
        frames, answers := frames - {f}, answers[f := None];
        return;
      }
      wake := wake[key := Tokens(wake, key) + [nextToken]];
      frames := frames[f := Parked(key, deadline, nextToken)];
      homes := homes[nextToken := Home(f, key)];
      nextToken := nextToken + 1;
    }
  }
}
