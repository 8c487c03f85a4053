/** Takeovers: what an alarm does when no phone answered in time, and how late it can be. */
module SessionTakeovers {
  import opened Options
  import opened Lists
  import opened Numbers
  import opened AccountRecords
  import opened SessionRequests
  import opened SessionRuns

  /** Every alarm fires in its second: nothing else happens later than a set alarm. */
  ghost predicate PromptAlarms(states: seq<State>, steps: seq<Step>) {
    forall k :: 0 <= k < |steps| && k < |states| && states[k].alarm.Some? ==> steps[k].now <= states[k].alarm.value
  }

  lemma {:induction false} AlarmIsAhead(states: seq<State>, steps: seq<Step>, i: nat)
    requires IsRun(states, steps) && i < |states| && PromptAlarms(states, steps)
    ensures states[i].alarm.Some? ==> states[i].clock <= states[i].alarm.value
  {
    if i > 0 {
      AlarmIsAhead(states, steps, i - 1);
      var s, step, t := states[i - 1], steps[i - 1], states[i];
      assert StepAt(states, steps, i - 1);
      if !Reschedules(step) {
        assert t.alarm == s.alarm;
      }
    }
  }

  /** An alarm drops no live request. */
  lemma AlarmKeepsLive(s: State, step: Step, t: State, id: string)
    requires Invariant(s) && Next(s, step, t) && step.Alarm?
    requires id in s.requests && s.requests[id].IsPending(step.now)
    ensures id in t.requests && t.requests[id].IsPending(step.now)
  {
    assert RequestInvariant(s, id);
  }

  /** An alarm at or after a live request's takeover time starts its sign-in exactly when there
    * are credentials and the engine takes it, and gives the takeover up otherwise; it leaves no
    * live request with a takeover past due. */
  lemma AlarmSettles(s: State, step: Step, t: State, id: string)
    requires Next(s, step, t) && step.Alarm?
    requires id in t.requests && t.requests[id].IsPending(step.now)
    ensures NoTakeover(t.requests[id]) || step.now < t.requests[id].vaultDueAt.value
    ensures id in s.requests
    ensures TakesOver(s.requests[id], step.now) ==>
              var starts := Starts(step.doc, step.now, id in step.takes);
              && t.requests[id].vaultStarted == starts && t.requests[id].vaultDueAt.Some? == starts
              && t.accepted[id] == s.accepted[id] + if starts then 1 else 0
    ensures !TakesOver(s.requests[id], step.now) ==>
              t.requests[id] == s.requests[id] && t.accepted[id] == s.accepted[id]
    ensures TakesOver(s.requests[id], step.now) <==>
              s.requests[id].TakeoverDue() && s.requests[id].vaultDueAt.value <= step.now
  {
  }

  // ---- how late a takeover can be ----

  predicate StillDue(s: State, id: string) {
    id in s.requests && s.requests[id].IsPending(s.clock) && s.requests[id].TakeoverDue()
  }

  lemma DueBeforeAlarm(s: State, step: Step, t: State, id: string)
    requires Next(s, step, t) && step.Alarm? && StillDue(t, id)
    ensures StillDue(s, id) && s.requests[id].vaultDueAt == t.requests[id].vaultDueAt
    ensures step.now < t.requests[id].vaultDueAt.value
  {
    AlarmSettles(s, step, t, id);
  }

  lemma DueBeforeFinish(s: State, step: Step, t: State, id: string)
    requires Next(s, step, t) && (step.FinishStart? || step.FinishLogin?) && StillDue(t, id) && id !in s.waiting
    ensures StillDue(s, id) && s.requests[id].vaultDueAt == t.requests[id].vaultDueAt
  {
  }

  /** A request whose takeover is still to come came through a step as it was, and no alarm at
    * or after its time came by. */
  lemma DueBefore(s: State, step: Step, t: State, id: string)
    requires Next(s, step, t) && id in s.made && id !in s.waiting && StillDue(t, id)
    ensures StillDue(s, id) && s.requests[id].vaultDueAt == t.requests[id].vaultDueAt
    ensures step.Alarm? ==> step.now < t.requests[id].vaultDueAt.value
  {
    if step.Alarm? {
      DueBeforeAlarm(s, step, t, id);
    } else if step.FinishStart? || step.FinishLogin? {
      DueBeforeFinish(s, step, t, id);
    }
  }

  lemma StaysHandled(s: State, step: Step, t: State, id: string)
    requires Next(s, step, t) && id in s.made && id !in s.waiting
    ensures id in t.made && id !in t.waiting
  {
  }

  /** A handler that finishes at or after the deadline of another request's takeover, and only
    * such a one, puts the alarm past it: a second past the handler's own time. */
  lemma PostponesExactly(s: State, step: Step, t: State, id: string, deadline: int)
    requires Next(s, step, t) && step.FinishStart?
    requires id in t.requests && t.requests[id].TakeoverDue() && t.requests[id].vaultDueAt.value <= deadline
    ensures t.alarm.Some? && t.alarm.value <= Max(deadline, step.now + 1)
    ensures t.alarm.value > deadline <==> step.now >= deadline
  {
    assert IsDue(t.requests, step.doc, t.requests[id].vaultDueAt.value);
  }

  /** How many handlers finish at or after a deadline. */
  function Late(steps: seq<Step>, from: nat, to: nat, deadline: int): nat
    requires from <= to <= |steps|
  {
    if from == to then 0
    else
      var last := if steps[to - 1].FinishStart? && steps[to - 1].now >= deadline then 1 else 0;
      Late(steps, from, to - 1, deadline) + last
  }

  /** Step `j` is the request's own handler giving it a takeover time. */
  ghost predicate GivenTakeover(states: seq<State>, steps: seq<Step>, j: nat, id: string) {
    && j < |steps| && j + 1 < |states| && steps[j].FinishStart? && steps[j].id == id
    && id in states[j + 1].requests && states[j + 1].requests[id].TakeoverDue()
  }

  /** By when the takeover should come: its time or, when that was past, the next second. */
  function Deadline(states: seq<State>, steps: seq<Step>, j: nat, id: string): int
    requires GivenTakeover(states, steps, j, id)
  {
    Max(states[j + 1].requests[id].vaultDueAt.value, steps[j].now + 1)
  }

  lemma {:induction false} HandledSince(states: seq<State>, steps: seq<Step>, j: nat, i: nat, id: string)
    requires IsRun(states, steps) && GivenTakeover(states, steps, j, id) && j < i < |states|
    ensures id in states[i].made && id !in states[i].waiting
  {
    assert StepAt(states, steps, i - 1);
    if i == j + 1 {
      RunKeepsInvariant(states, steps, i);
      assert RequestInvariant(states[i], id);
    } else {
      HandledSince(states, steps, j, i - 1, id);
      StaysHandled(states[i - 1], steps[i - 1], states[i], id);
    }
  }

  /** While a takeover is still to come, it is the one given, and the alarm is no later than its
    * deadline and a second for each handler that finished late. */
  predicate Awaited(s: State, id: string, due: int, latest: int) {
    StillDue(s, id) ==> s.requests[id].vaultDueAt == Some(due) && s.alarm.Some? && s.alarm.value <= latest
  }

  lemma AwaitedOneMore(s: State, step: Step, t: State, id: string, due: int, deadline: int, latest: int)
    requires Next(s, step, t) && id in s.made && id !in s.waiting && Awaited(s, id, due, latest)
    requires s.alarm.Some? ==> step.now <= s.alarm.value
    requires due <= deadline <= latest
    ensures Awaited(t, id, due, if step.FinishStart? && step.now >= deadline then latest + 1 else latest)
  {
    if StillDue(t, id) {
      DueBefore(s, step, t, id);
      if step.FinishStart? {
        PostponesExactly(s, step, t, id, deadline);
      } else if step.Alarm? {
        assert IsDue(t.requests, ScheduledDoc(step), due);
      }
    }
  }

  lemma {:induction false} AwaitedSince(states: seq<State>, steps: seq<Step>, j: nat, i: nat, id: string)
    requires IsRun(states, steps) && PromptAlarms(states, steps)
    requires GivenTakeover(states, steps, j, id) && j < i < |states|
    ensures var deadline := Deadline(states, steps, j, id);
            Awaited(states[i], id, states[j + 1].requests[id].vaultDueAt.value,
                    deadline + Late(steps, j + 1, i, deadline))
  {
    var due, deadline := states[j + 1].requests[id].vaultDueAt.value, Deadline(states, steps, j, id);
    assert StepAt(states, steps, i - 1);
    if i == j + 1 {
      PostponesExactly(states[j], steps[j], states[i], id, deadline);
    } else {
      HandledSince(states, steps, j, i - 1, id);
      AwaitedSince(states, steps, j, i - 1, id);
      AwaitedOneMore(states[i - 1], steps[i - 1], states[i], id, due, deadline,
                     deadline + Late(steps, j + 1, i - 1, deadline));
    }
  }

  /** Where alarms fire in their second, a live request is past its deadline with a takeover
    * still to come for at most a second for each other handler that finished at or after it:
    * then its sign-in has started or there is none to start. */
  lemma TakeoverOnTime(states: seq<State>, steps: seq<Step>, j: nat, i: nat, id: string)
    requires IsRun(states, steps) && PromptAlarms(states, steps)
    requires GivenTakeover(states, steps, j, id) && j < i < |states|
    requires id in states[i].requests && states[i].requests[id].IsPending(states[i].clock)
    requires var deadline := Deadline(states, steps, j, id);
             states[i].clock > deadline + Late(steps, j + 1, i, deadline)
    ensures NoTakeover(states[i].requests[id])
  {
    AwaitedSince(states, steps, j, i, id);
    AlarmIsAhead(states, steps, i);
  }

  /** A key's phones are asked first, and the server takes over after twenty seconds. */
  predicate PhoneFirstKey(doc: Account, keyHash: string) {
    && Has(doc.keys, KeyHash, keyHash) && doc.PhonesForKey(keyHash) != []
    && doc.settings == Settings(false, 20, None) && doc.sealedVault.Some? && doc.CachedSession(10).None?
    && Allowed(Window(doc.windowStart, doc.windowHits), 10)
  }

  ghost predicate AllPhonesLog(network: Network) {
    network.urlSet && forall d :: network.phones(d).Logged?
  }

  /** The start of a session for `id` that asks a phone at second 10, with its alarm. */
  lemma AsksPhoneFirst(doc: Account, keyHash: string, id: string, network: Network)
    requires PhoneFirstKey(doc, keyHash) && AllPhonesLog(network)
    ensures var request := NewRequest(id, "token", 10, doc.PhonesForKey(keyHash));
            Begun(doc, request, 10, network) == request.(phoneAsked := true, vaultDueAt := Some(30))
  {
    assert doc.PhonesForKey(keyHash)[0] in doc.PhonesForKey(keyHash);
  }

  /** Two requests at second 10: the first refused by its phone, both handlers still at it. */
  predicate HalfWay(s: State, doc: Account, keyHash: string) {
    var phones := doc.PhonesForKey(keyHash);
    var a, b := NewRequest("a", "token", 10, phones), NewRequest("b", "token", 10, phones);
    && s.clock == 10 && s.requests.Keys == {"a", "b"}
    && s.requests["a"] == a.Fail(Told("no")) && s.requests["b"] == b
    && s.waiting == map["a" := Waiting(a, doc, 10), "b" := Waiting(b, doc, 10)]
  }

  lemma RefusedThenStarted(doc: Account, keyHash: string, network: Network) returns (s1: State, s2: State, s3: State)
    requires PhoneFirstKey(doc, keyHash)
    ensures Next(INITIAL, BeginStart(doc, keyHash, "a", "token", 10, CannotTell, 10), s1)
    ensures Next(s1, Answer("a", Refusal("no"), 10), s2)
    ensures Next(s2, BeginStart(doc, keyHash, "b", "token", 10, CannotTell, 10), s3)
    ensures s1.alarm == s2.alarm == s3.alarm == None && HalfWay(s3, doc, keyHash)
  {
    s1 := Done(INITIAL, BeginStart(doc, keyHash, "a", "token", 10, CannotTell, 10)).(clock := 10);
    s2 := Done(s1, Answer("a", Refusal("no"), 10)).(clock := 10);
    s3 := Done(s2, BeginStart(doc, keyHash, "b", "token", 10, CannotTell, 10)).(clock := 10);
  }

  lemma FirstDueAt(requests: map<string, Request>, id: string, doc: Account, now: int)
    requires doc.settings.vaultTtlSecs.None? && id in requests && DueFor(requests[id], 30)
    requires forall q <- requests ::
               requests[q].createdAt == 10 && (requests[q].TakeoverDue() ==> requests[q].vaultDueAt == Some(30))
    ensures IsScheduled(Some(Max(30, now + 1)), requests, doc, now)
  {
    assert IsDue(requests, doc, 30);
  }

  /** The second handler finishes at once, the first in the second the takeover is due. */
  lemma FinishedLate(s: State, doc: Account, keyHash: string, network: Network) returns (t: State, u: State, v: State)
    requires PhoneFirstKey(doc, keyHash) && AllPhonesLog(network)
    requires HalfWay(s, doc, keyHash)
    ensures Next(s, FinishStart(doc, "b", network, 10), t) && t.alarm == Some(30)
    ensures Next(t, FinishStart(doc, "a", network, 30), u) && u.alarm == Some(31)
    ensures Next(u, Answer("a", Refusal("no"), 31), v) && v.clock == 31
    ensures "b" in t.requests && t.requests["b"].TakeoverDue() && t.requests["b"].vaultDueAt == Some(30)
    ensures "b" in v.requests && v.requests["b"] == t.requests["b"] && v.requests["b"].IsPending(31)
  {
    AsksPhoneFirst(doc, keyHash, "a", network);
    AsksPhoneFirst(doc, keyHash, "b", network);
    t := Done(s, FinishStart(doc, "b", network, 10)).(clock := 10, setAt := 10, alarm := Some(30));
    FirstDueAt(t.requests, "b", doc, 10);
    u := Done(t, FinishStart(doc, "a", network, 30)).(clock := 30, setAt := 30, alarm := Some(31));
    FirstDueAt(u.requests, "b", doc, 30);
    v := Done(u, Answer("a", Refusal("no"), 31)).(clock := 31);
  }

  lemma ThreeMore(states: seq<State>, steps: seq<Step>, more: seq<State>, moreSteps: seq<Step>)
    requires IsRun(states, steps) && |more| == |moreSteps| == 3
    requires Next(states[|steps|], moreSteps[0], more[0])
    requires Next(more[0], moreSteps[1], more[1]) && Next(more[1], moreSteps[2], more[2])
    ensures IsRun(states + more, steps + moreSteps)
  {
    forall i: nat | i < |steps| ensures StepAt(states + more, steps + moreSteps, i) {
      assert StepAt(states, steps, i);
    }
  }

  lemma FirstThree(doc: Account, keyHash: string, network: Network) returns (states: seq<State>, steps: seq<Step>)
    requires PhoneFirstKey(doc, keyHash)
    ensures IsRun(states, steps) && |steps| == 3 && forall k :: 0 <= k < 4 ==> states[k].alarm.None?
    ensures HalfWay(states[3], doc, keyHash)
  {
    var s1, s2, s3 := RefusedThenStarted(doc, keyHash, network);
    states := [INITIAL] + [s1, s2, s3];
    steps := [] + [BeginStart(doc, keyHash, "a", "token", 10, CannotTell, 10), Answer("a", Refusal("no"), 10),
                   BeginStart(doc, keyHash, "b", "token", 10, CannotTell, 10)];
    ThreeMore([INITIAL], [], [s1, s2, s3], steps);
  }

  lemma LastThree(before: seq<State>, steps: seq<Step>, doc: Account, keyHash: string, network: Network)
    returns (states: seq<State>, more: seq<Step>)
    requires PhoneFirstKey(doc, keyHash) && AllPhonesLog(network)
    requires IsRun(before, steps) && |steps| == 3 && HalfWay(before[3], doc, keyHash)
    ensures IsRun(states, steps + more) && |more| == 3 && states[..4] == before
    ensures more[0].FinishStart? && more[0].id == "b" && more[0].now == 10 && more[1].now == 30 && more[2].now == 31
    ensures states[4].alarm == Some(30) && states[5].alarm == Some(31) && states[6].clock == 31
    ensures "b" in states[4].requests && states[4].requests["b"].TakeoverDue()
    ensures states[4].requests["b"].vaultDueAt == Some(30)
    ensures "b" in states[6].requests && states[6].requests["b"] == states[4].requests["b"]
    ensures states[6].requests["b"].IsPending(31)
  {
    var t, u, v := FinishedLate(before[3], doc, keyHash, network);
    states := before + [t, u, v];
    more := [FinishStart(doc, "b", network, 10), FinishStart(doc, "a", network, 30), Answer("a", Refusal("no"), 31)];
    ThreeMore(before, steps, [t, u, v], more);
  }

  /** The alarm is postponed in a run: while the handler of a request its phone refused is still
    * at it, a second request starts; the first handler finishes in the second the takeover of
    * the second request is due, and the alarm moves a second on. */
  lemma TakeoverCanBeLate(doc: Account, keyHash: string, network: Network)
    returns (states: seq<State>, steps: seq<Step>)
    requires PhoneFirstKey(doc, keyHash) && AllPhonesLog(network)
    ensures IsRun(states, steps) && PromptAlarms(states, steps) && |steps| == 6
    ensures GivenTakeover(states, steps, 3, "b") && Deadline(states, steps, 3, "b") == 30
    ensures states[6].clock == 31 && "b" in states[6].requests && states[6].requests["b"].IsPending(31)
    ensures !NoTakeover(states[6].requests["b"])
  {
    var before, first := FirstThree(doc, keyHash, network);
    var more;
    states, more := LastThree(before, first, doc, keyHash, network);
    steps := first + more;
    assert forall k :: 0 <= k < 4 ==> states[k] == before[k];
  }
}
