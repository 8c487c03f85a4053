/** What every run of an account object keeps of its session requests. */
module SessionRuns {
  import opened Options
  import opened Lists
  import opened Numbers
  import opened AccountRecords
  import opened SessionRequests

  /** Answered requests say how; a pending one is untouched by an answer. */
  predicate WellShaped(request: Request) {
    match request.status
    case Pending => request.cookies.None? && request.error.None? && request.source.None?
    case Success => request.cookies.Some? && request.source.Some?
    case Error => request.error.Some?
  }

  /** Nothing the alarm could still start a sign-in for. */
  predicate NoTakeover(request: Request) {
    request.vaultStarted || request.vaultDueAt.None?
  }

  predicate RequestInvariant(s: State, id: string)
    requires id in s.requests
  {
    var request := s.requests[id];
    && request.id == id && id in s.made && request.expiresAt == request.createdAt + REQUEST_TIMEOUT_SECS
    && WellShaped(request)
    // Somebody is working on it, or its handler is still finding somebody.
    && (request.status.Pending? && id !in s.waiting ==> request.phoneAsked || request.vaultStarted)
    // Only the one others join may be live.
    && (request.status.Pending? && s.pendingId != Some(id) ==> request.expiresAt <= s.clock)
    && (s.accepted[id] > 0 ==> NoTakeover(request))
    && (id in s.waiting ==>
          request.vaultDueAt.None? && !request.vaultStarted && request.expiresAt == s.waiting[id].request.expiresAt)
    // The alarm comes by the takeover time, or the second after it was set.
    && (request.TakeoverDue() ==> s.alarm.Some? && s.alarm.value <= Max(request.vaultDueAt.value, s.setAt + 1))
  }

  predicate WaitingInvariant(s: State, id: string)
    requires id in s.waiting
  {
    var w := s.waiting[id];
    && id in s.made && s.accepted[id] == 0
    && w.at <= s.clock
    && w.request == NewRequest(id, w.request.responseToken, w.at, w.request.phones)
  }

  ghost predicate Invariant(s: State) {
    && (forall id <- s.requests :: RequestInvariant(s, id))
    && (forall id <- s.waiting :: WaitingInvariant(s, id))
    && (forall id :: s.accepted[id] <= 1)
    && (forall id :: s.accepted[id] > 0 ==> id in s.made)
    && s.setAt <= s.clock
  }

  // ---- one step ----

  lemma BegunIsWorkedOn(doc: Account, request: Request, at: int, network: Network)
    requires request == NewRequest(request.id, request.responseToken, at, request.phones)
    ensures var begun := Begun(doc, request, at, network);
            && WellShaped(begun) && begun.id == request.id && begun.expiresAt == request.expiresAt
            && begun.createdAt == request.createdAt
            && (begun.status.Pending? ==> begun.phoneAsked || begun.vaultStarted)
            && (begun.vaultDueAt.Some? ==> !begun.vaultStarted && begun.status.Pending?)
  {
  }

  lemma FinishStartKeeps(s: State, step: Step, t: State)
    requires Invariant(s) && Next(s, step, t) && step.FinishStart?
    ensures Invariant(t)
  {
    var w := s.waiting[step.id];
    BegunIsWorkedOn(w.doc, w.request, w.at, step.network);
    ScheduledInTime(t, step);
    assert WaitingInvariant(s, step.id);
    forall id | id in t.requests ensures RequestInvariant(t, id) {
      assert RequestInvariant(s, id);
    }
    forall id | id in t.waiting ensures WaitingInvariant(t, id) {
      assert WaitingInvariant(s, id);
    }
  }

  /** A rescheduled alarm is in time for every takeover to come. */
  lemma ScheduledInTime(t: State, step: Step)
    requires Reschedules(step) && IsScheduled(t.alarm, t.requests, ScheduledDoc(step), step.now) && t.setAt == step.now
    ensures forall id <- t.requests :: t.requests[id].TakeoverDue() ==>
              t.alarm.Some? && t.alarm.value <= Max(t.requests[id].vaultDueAt.value, t.setAt + 1)
  {
    forall id | id in t.requests && t.requests[id].TakeoverDue()
      ensures t.alarm.Some? && t.alarm.value <= Max(t.requests[id].vaultDueAt.value, t.setAt + 1)
    {
      assert IsDue(t.requests, ScheduledDoc(step), t.requests[id].vaultDueAt.value);
    }
  }

  lemma AlarmKeeps(s: State, step: Step, t: State)
    requires Invariant(s) && Next(s, step, t) && step.Alarm?
    ensures Invariant(t)
  {
    ScheduledInTime(t, step);
    forall id | id in t.requests ensures RequestInvariant(t, id) {
      assert RequestInvariant(s, id);
    }
    forall id | id in t.waiting ensures WaitingInvariant(t, id) {
      assert WaitingInvariant(s, id);
      assert id in s.requests ==> RequestInvariant(s, id);
    }
    forall id ensures t.accepted[id] <= 1 && (t.accepted[id] > 0 ==> id in t.made) {
      assert id in s.requests ==> RequestInvariant(s, id);
    }
  }

  lemma RecordingKeeps(s: State, request: Request, doc: Account, at: int, now: int)
    requires Invariant(s) && !Joins(s, at) && at <= now && s.clock <= now
    requires request == NewRequest(request.id, request.responseToken, at, request.phones) && request.id !in s.made
    ensures Invariant(Recorded(s, request, doc, at).(clock := now))
  {
    var t := Recorded(s, request, doc, at).(clock := now);
    assert s.accepted[request.id] == 0;
    forall id | id in t.requests ensures RequestInvariant(t, id) {
      assert id in s.requests ==> RequestInvariant(s, id);
    }
    forall id | id in t.waiting ensures WaitingInvariant(t, id) {
      assert id in s.waiting ==> WaitingInvariant(s, id);
    }
  }

  /** What an answer may make of a request. */
  predicate AnswerOf(before: Request, after: Request) {
    && WellShaped(after)
    && after == before.(status := after.status, cookies := after.cookies, csrfToken := after.csrfToken,
                        error := after.error, source := after.source, phoneAsked := after.phoneAsked)
    && (after.status.Pending? ==> before.status.Pending? && (before.phoneAsked ==> after.phoneAsked))
  }

  /** A request changed in place by an answer. */
  lemma AnsweringKeeps(s: State, id: string, after: Request, now: int)
    requires Invariant(s) && s.clock <= now && id in s.requests
    requires AnswerOf(s.requests[id], after)
    ensures Invariant(s.(requests := s.requests[id := after], clock := now))
  {
    var t := s.(requests := s.requests[id := after], clock := now);
    forall other | other in t.requests ensures RequestInvariant(t, other) {
      assert RequestInvariant(s, other);
    }
    forall other | other in t.waiting ensures WaitingInvariant(t, other) {
      assert WaitingInvariant(s, other);
    }
  }

  lemma TimePasses(s: State, now: int)
    requires Invariant(s) && s.clock <= now
    ensures Invariant(s.(clock := now))
  {
    var t := s.(clock := now);
    forall id | id in t.requests ensures RequestInvariant(t, id) {
      assert RequestInvariant(s, id);
    }
    forall id | id in t.waiting ensures WaitingInvariant(t, id) {
      assert WaitingInvariant(s, id);
    }
  }

  lemma FinishLoginKeeps(s: State, step: Step, t: State)
    requires Invariant(s) && Next(s, step, t) && step.FinishLogin?
    ensures Invariant(t)
  {
    assert WaitingInvariant(s, step.id);
    forall id | id in t.requests ensures RequestInvariant(t, id) {
      FinishLoginKeepsRequest(s, step, t, id);
    }
    forall id | id in t.waiting ensures WaitingInvariant(t, id) {
      assert WaitingInvariant(s, id);
    }
  }

  lemma FinishLoginKeepsRequest(s: State, step: Step, t: State, id: string)
    requires Invariant(s) && Next(s, step, t) && step.FinishLogin? && id in t.requests
    ensures RequestInvariant(t, id)
  {
    assert WaitingInvariant(s, step.id);
    assert id in s.requests ==> RequestInvariant(s, id);
  }

  lemma LoginAnswers(request: Request, outcome: Outcome, network: Network, at: int)
    requires WellShaped(request)
    ensures AnswerOf(request, AfterLogin(request, outcome, network, at))
  {
  }

  lemma PhoneAnswers(request: Request, answer: PhoneAnswer, at: int)
    requires WellShaped(request)
    ensures AnswerOf(request, AfterAnswer(request, answer, at))
  {
  }

  lemma AnswerStepsKeep(s: State, step: Step, t: State)
    requires Invariant(s) && Next(s, step, t) && (step.LoginDone? || step.Answer?)
    ensures Invariant(t)
  {
    if step.id in s.requests {
      var request := s.requests[step.id];
      assert RequestInvariant(s, step.id);
      match step
      case LoginDone(id, outcome, network, now) =>
        LoginAnswers(request, outcome, network, now);
        AnsweringKeeps(s, id, AfterLogin(request, outcome, network, now), now);
      case Answer(id, answer, now) =>
        PhoneAnswers(request, answer, now);
        AnsweringKeeps(s, id, AfterAnswer(request, answer, now), now);
    } else {
      TimePasses(s, step.now);
    }
  }

  lemma BeginStepsKeep(s: State, step: Step, t: State)
    requires Invariant(s) && Next(s, step, t) && (step.BeginStart? || step.BeginLogin?)
    ensures Invariant(t)
  {
    match step
    case BeginStart(doc, keyHash, id, token, at, check, now) =>
      if StartRecords(s, doc, keyHash, at, check) {
        RecordingKeeps(s, NewRequest(id, token, at, doc.PhonesForKey(keyHash)), doc, at, now);
      } else {
        TimePasses(s, now);
      }
    case BeginLogin(doc, id, token, at, check, now) =>
      if LoginRecords(s, doc, at, check) {
        RecordingKeeps(s, NewRequest(id, token, at, []), doc, at, now);
      } else {
        TimePasses(s, now);
      }
  }

  lemma StepKeepsInvariant(s: State, step: Step, t: State)
    requires Invariant(s) && Next(s, step, t)
    ensures Invariant(t)
  {
    if step.FinishStart? {
      FinishStartKeeps(s, step, t);
    } else if step.Alarm? {
      AlarmKeeps(s, step, t);
    } else if step.FinishLogin? {
      FinishLoginKeeps(s, step, t);
    } else if step.BeginStart? || step.BeginLogin? {
      BeginStepsKeep(s, step, t);
    } else {
      AnswerStepsKeep(s, step, t);
    }
  }

  lemma {:induction false} RunKeepsInvariant(states: seq<State>, steps: seq<Step>, i: nat)
    requires IsRun(states, steps) && i < |states|
    ensures Invariant(states[i])
  {
    if i > 0 {
      RunKeepsInvariant(states, steps, i - 1);
      assert StepAt(states, steps, i - 1);
      StepKeepsInvariant(states[i - 1], steps[i - 1], states[i]);
    }
  }

  // ---- main results ----

  /** Success carries cookies and a source, error a message; a pending request has been sent to
    * a phone or to the engine unless its own handler is still at it; at most one request is
    * live; and each has at most one sign-in the engine took. */
  lemma RequestsAreSound(states: seq<State>, steps: seq<Step>, i: nat)
    requires IsRun(states, steps) && i < |states|
    ensures var s := states[i];
            && (forall id <- s.requests ::
                  && WellShaped(s.requests[id])
                  && (s.requests[id].status.Pending? && id !in s.waiting ==>
                        s.requests[id].phoneAsked || s.requests[id].vaultStarted))
            && (forall a <- s.requests, b <- s.requests ::
                  s.requests[a].IsPending(s.clock) && s.requests[b].IsPending(s.clock) ==> a == b)
            && (forall id :: s.accepted[id] <= 1)
  {
    RunKeepsInvariant(states, steps, i);
    forall id | id in states[i].requests ensures RequestInvariant(states[i], id) {
    }
  }

  /** A sign-in by `appLogin` that could not start, written over a request no longer pending. */
  predicate OverwritesEnded(s: State, step: Step) {
    && step.FinishLogin? && step.id in s.waiting
    && !(step.id in s.requests && s.requests[step.id].status.Pending?)
    && !Starts(s.waiting[step.id].doc, s.waiting[step.id].at, step.engineTakes)
  }

  /** One step leaves an ended request as it is or drops it, but for that one write. */
  lemma EndedStays(s: State, step: Step, t: State, id: string)
    requires Invariant(s) && Next(s, step, t) && !OverwritesEnded(s, step)
    requires id in s.requests && !s.requests[id].status.Pending?
    ensures id in t.requests ==> t.requests[id] == s.requests[id]
    ensures id in t.made
  {
    assert RequestInvariant(s, id);
  }

  /** A request dropped does not come back. */
  lemma DroppedStays(s: State, step: Step, t: State, id: string)
    requires Invariant(s) && Next(s, step, t) && !OverwritesEnded(s, step)
    requires id in s.made && id !in s.requests
    ensures id !in t.requests && id in t.made
  {
  }

  /** An answered request becomes an error in exactly one kind of step: the unchecked write. */
  lemma OnlyOverwriteUndoesSuccess(s: State, step: Step, t: State, id: string)
    requires Invariant(s) && Next(s, step, t)
    requires id in s.requests && s.requests[id].status.Success?
    ensures id in t.requests && !t.requests[id].status.Success? <==> OverwritesEnded(s, step) && step.id == id
  {
    assert RequestInvariant(s, id);
  }

  /** The id was given out, and if its request is still kept it is this ended one. */
  predicate KeptAs(s: State, id: string, ended: Request) {
    && !ended.status.Pending? && id in s.made
    && (id in s.requests ==> s.requests[id] == ended)
  }

  lemma KeptOneMore(s: State, step: Step, t: State, id: string, ended: Request)
    requires Invariant(s) && Next(s, step, t) && !OverwritesEnded(s, step) && KeptAs(s, id, ended)
    ensures KeptAs(t, id, ended)
  {
    if id in s.requests {
      EndedStays(s, step, t, id);
    } else {
      DroppedStays(s, step, t, id);
    }
  }

  ghost predicate NoOverwrites(states: seq<State>, steps: seq<Step>) {
    forall k :: 0 <= k < |steps| && k < |states| ==> !OverwritesEnded(states[k], steps[k])
  }

  lemma KeptOverStep(states: seq<State>, steps: seq<Step>, i: nat, id: string, ended: Request)
    requires IsRun(states, steps) && i < |steps| && !OverwritesEnded(states[i], steps[i])
    requires KeptAs(states[i], id, ended)
    ensures KeptAs(states[i + 1], id, ended)
  {
    RunKeepsInvariant(states, steps, i);
    assert StepAt(states, steps, i);
    KeptOneMore(states[i], steps[i], states[i + 1], id, ended);
  }

  lemma {:induction false} KeptForever(states: seq<State>, steps: seq<Step>, i: nat, j: nat, id: string, ended: Request)
    requires IsRun(states, steps) && i <= j < |states| && NoOverwrites(states, steps)
    requires KeptAs(states[i], id, ended)
    ensures KeptAs(states[j], id, ended)
    decreases j
  {
    if i < j {
      KeptForever(states, steps, i, j - 1, id, ended);
      KeptOverStep(states, steps, j - 1, id, ended);
    }
  }

  /** A request that ended never changes again, over any run in which no failed `appLogin`
    * start is written over a request no longer pending. */
  lemma EndedForever(states: seq<State>, steps: seq<Step>, i: nat, j: nat, id: string)
    requires IsRun(states, steps) && i <= j < |states| && NoOverwrites(states, steps)
    requires id in states[i].requests && !states[i].requests[id].status.Pending?
    ensures id in states[j].requests ==> states[j].requests[id] == states[i].requests[id]
  {
    RunKeepsInvariant(states, steps, i);
    assert RequestInvariant(states[i], id);
    KeptForever(states, steps, i, j, id, states[i].requests[id]);
  }

  /** Whenever a takeover is to come an alarm is set, no later than its time or, when that was
    * already past, than one second after the alarm was chosen. */
  lemma AlarmIsInTime(states: seq<State>, steps: seq<Step>, i: nat, id: string)
    requires IsRun(states, steps) && i < |states|
    requires id in states[i].requests && states[i].requests[id].TakeoverDue()
    ensures states[i].alarm.Some?
    ensures states[i].alarm.value <= Max(states[i].requests[id].vaultDueAt.value, states[i].setAt + 1)
  {
    RunKeepsInvariant(states, steps, i);
    assert RequestInvariant(states[i], id);
  }

  /** The unchecked write happens: the engine took a sign-in whose answer was lost, finished it,
    * and `appLogin` then writes its failure over the session. */
  lemma SignInCanBeLost(doc: Account, network: Network) returns (states: seq<State>, steps: seq<Step>)
    requires doc.UsableVault(10).Some? && doc.CachedSession(10).None?
    ensures IsRun(states, steps) && |steps| == 3
    ensures "r" in states[2].requests && states[2].requests["r"].status.Success?
    ensures "r" in states[3].requests && states[3].requests["r"].status.Error?
  {
    var begin := BeginLogin(doc, "r", "token", 10, CannotTell, 10);
    var done := LoginDone("r", SignedIn("cookies", "sealed", None), network, 11);
    var finish := FinishLogin("r", false, 12);
    var s1 := Done(INITIAL, begin).(clock := 10);
    var s2 := Done(s1, done).(clock := 11);
    var s3 := Done(s2, finish).(clock := 12);
    states, steps := [INITIAL, s1, s2, s3], [begin, done, finish];
    assert Next(INITIAL, begin, s1) && Next(s1, done, s2) && Next(s2, finish, s3);
    assert IsRun(states, steps);
  }
}
