/** When the gateway asks for its keys, against when the edge rotates them. */
module KeyAsking {
  import opened Calendar
  import opened KeyRotation
  import opened Numbers

  const KEYS_EVERY := 6 * 3600

  /** The seconds the gateway sleeps after an answer at `now`. */
  function NextKeyCheck(now: nat): nat {
    var since := (if now < MONDAY_IST then 0 else now - MONDAY_IST) % WEEK_SECS;
    var rotation := WEEK_SECS - since + 30;
    if rotation < KEYS_EVERY then rotation else KEYS_EVERY
  }

  /** The gateway's formula is the edge's schedule half a minute late, at every time from the
    * shared Monday on, and before it exactly when the next rotation is hours away. */
  lemma CheckFollowsSchedule(now: nat)
    ensures NextKeyCheck(now) == Min(NextMondayIst(now) - now + 30, KEYS_EVERY) <==>
              MONDAY_IST <= now || KEYS_EVERY <= NextMondayIst(now) - now + 30
  {
    NextMondayIsNext(now);
    if MONDAY_IST <= now {
      var since := (now - MONDAY_IST) % WEEK_SECS;
      assert now + WEEK_SECS - since == NextMondayIst(now);
    }
  }

  /** Always forward, and never later than six hours. */
  lemma CheckIsBounded(now: nat)
    ensures 30 < NextKeyCheck(now) <= KEYS_EVERY
  {
  }

  /** A successful ask: sent, and answered. */
  datatype Ask = Ask(sent: nat, answered: nat)

  /** Each ask sleeps as computed when the one before was answered, and wakes at most `late`
    * seconds after. */
  ghost predicate IsRun(asks: seq<Ask>, late: nat) {
    && late <= 3600 && asks != [] && MONDAY_IST <= asks[0].sent
    && (forall i :: 0 <= i < |asks| ==> asks[i].sent <= asks[i].answered)
    && forall i :: 0 <= i < |asks| - 1 ==> Follows(asks[i], asks[i + 1], late)
  }

  predicate Follows(a: Ask, b: Ask, late: nat) {
    a.answered + NextKeyCheck(a.answered) <= b.sent <= a.answered + NextKeyCheck(a.answered) + late
  }

  lemma {:induction false} AsksMoveForward(asks: seq<Ask>, late: nat, i: nat, j: nat)
    requires IsRun(asks, late) && i < j < |asks|
    ensures asks[i].answered + 30 < asks[j].sent
    ensures j == i + 1 ==> asks[j].sent <= asks[i].answered + KEYS_EVERY + late
  {
    CheckIsBounded(asks[j - 1].answered);
    assert Follows(asks[j - 1], asks[j], late);
    if i < j - 1 {
      AsksMoveForward(asks, late, i, j - 1);
    }
  }

  /** An ask answered before a rotation is followed by one no later than half a minute after. */
  lemma NextAskAfterRotation(a: Ask, b: Ask, late: nat, rotation: int)
    requires MONDAY_IST <= a.answered < rotation && IsRotation(rotation) && Follows(a, b, late)
    ensures b.sent <= rotation + 30 + late
  {
    CheckFollowsSchedule(a.answered);
    NextMondayIsNext(a.answered);
    if NextMondayIst(a.answered) != rotation {
      if rotation < NextMondayIst(a.answered) {
        RotationWithinWeek(a.answered, rotation);
      }
    }
  }

  /** An ask answered just after a rotation is followed by one hours later. */
  lemma NextAskIsFar(a: Ask, b: Ask, late: nat, rotation: int)
    requires MONDAY_IST <= rotation <= a.answered && IsRotation(rotation) && late <= 3600 && Follows(a, b, late)
    ensures rotation + 30 + late < b.sent
  {
    CheckIsBounded(a.answered);
    if a.answered <= rotation + 30 + late {
      CheckFollowsSchedule(a.answered);
      NextWeek(a.answered, rotation);
    }
  }

  ghost predicate AsksInTime(asks: seq<Ask>, late: nat, rotation: int) {
    exists i :: 0 <= i < |asks| && rotation <= asks[i].sent <= rotation + 30 + late
  }

  /** An ask sent before a rotation and answered after it: it may bring the old keys. */
  ghost predicate Straddled(asks: seq<Ask>, rotation: int) {
    exists i :: 0 <= i < |asks| && asks[i].sent < rotation <= asks[i].answered
  }

  lemma {:induction false} FirstAnsweredAfter(asks: seq<Ask>, rotation: int, from: nat) returns (i: nat)
    requires from < |asks| && asks[from].answered < rotation <= asks[|asks| - 1].answered
    ensures from < i < |asks| && asks[i - 1].answered < rotation <= asks[i].answered
    decreases |asks| - from
  {
    if rotation <= asks[from + 1].answered {
      i := from + 1;
    } else {
      i := FirstAnsweredAfter(asks, rotation, from + 1);
    }
  }

  /** Over every run, each rotation between the first answer and the last ask is asked for in
    * the half minute after it (and the time a sleep runs late), exactly when no ask was under
    * way at the rotation. */
  lemma AskedAfterEachRotation(asks: seq<Ask>, late: nat, rotation: int)
    requires IsRun(asks, late) && IsRotation(rotation)
    requires asks[0].answered < rotation && rotation + 30 + late < asks[|asks| - 1].sent
    ensures AsksInTime(asks, late, rotation) <==> !Straddled(asks, rotation)
  {
    var i := FirstAnsweredAfter(asks, rotation, 0);
    if i > 1 {
      AsksMoveForward(asks, late, 0, i - 1);
    }
    NextAskAfterRotation(asks[i - 1], asks[i], late, rotation);
    if j, k :| 0 <= j < |asks| && 0 <= k < |asks| && rotation <= asks[j].sent <= rotation + 30 + late
               && asks[k].sent < rotation <= asks[k].answered
    {
      NotBoth(asks, late, rotation, j, k);
    }
  }

  lemma NotBoth(asks: seq<Ask>, late: nat, rotation: int, j: nat, k: nat)
    requires IsRun(asks, late) && IsRotation(rotation) && MONDAY_IST <= rotation && j < |asks| && k < |asks|
    requires asks[k].sent < rotation <= asks[k].answered
    ensures !(rotation <= asks[j].sent <= rotation + 30 + late)
  {
    if j < k {
      AsksMoveForward(asks, late, j, k);
    } else if k < j {
      NextAskIsFar(asks[k], asks[k + 1], late, rotation);
      if k + 1 < j {
        AsksMoveForward(asks, late, k + 1, j);
      }
    }
  }

  /** After an ask that straddles a rotation the next one comes six hours after the answer, or
    * half a minute after the rotation that follows if that is sooner. */
  lemma StraddledAskWaits(asks: seq<Ask>, late: nat, rotation: int, k: nat)
    requires IsRun(asks, late) && IsRotation(rotation) && MONDAY_IST <= rotation && k + 1 < |asks|
    requires asks[k].sent < rotation <= asks[k].answered
    ensures var wait := Min(KEYS_EVERY, NextMondayIst(asks[k].answered) - asks[k].answered + 30);
            asks[k].answered + wait <= asks[k + 1].sent <= asks[k].answered + wait + late
    ensures asks[k].answered <= rotation + WEEK_SECS - KEYS_EVERY ==> rotation + KEYS_EVERY <= asks[k + 1].sent
  {
    assert Follows(asks[k], asks[k + 1], late);
    CheckFollowsSchedule(asks[k].answered);
    if asks[k].answered <= rotation + WEEK_SECS - KEYS_EVERY {
      NextWeek(asks[k].answered, rotation);
    }
  }

  lemma NextWeek(now: int, rotation: int)
    requires IsRotation(rotation) && rotation <= now < rotation + WEEK_SECS
    ensures NextMondayIst(now) == rotation + WEEK_SECS
  {
    var weeks := (rotation - MONDAY_IST) / WEEK_SECS;
    Quotient(now - MONDAY_IST, WEEK_SECS, weeks, now - rotation);
  }

  /** A run that misses a rotation: an ask sent ten seconds before it is answered five after. */
  function Straddling(rotation: nat): seq<Ask>
    requires KEYS_EVERY + 10 <= rotation
  {
    [Ask(rotation - 10 - KEYS_EVERY, rotation - 10 - KEYS_EVERY), Ask(rotation - 10, rotation + 5),
     Ask(rotation + 5 + KEYS_EVERY, rotation + 5 + KEYS_EVERY)]
  }

  /** Away from a rotation the wait is six hours. */
  lemma SixHoursBetween(now: nat, rotation: int)
    requires IsRotation(rotation) && MONDAY_IST <= rotation <= now <= rotation + WEEK_SECS + 30 - KEYS_EVERY
    ensures NextKeyCheck(now) == KEYS_EVERY
  {
    CheckFollowsSchedule(now);
    NextWeek(now, rotation);
  }

  lemma WeekBefore(rotation: int)
    requires IsRotation(rotation) && MONDAY_IST < rotation
    ensures IsRotation(rotation - WEEK_SECS) && MONDAY_IST <= rotation - WEEK_SECS
  {
    RotationsAWeekApart(MONDAY_IST, rotation);
    ModShift(rotation - MONDAY_IST, -1, WEEK_SECS);
  }

  /** At every rotation after the shared Monday. */
  lemma RotationCanBeMissed(rotation: nat)
    requires IsRotation(rotation) && MONDAY_IST < rotation
    ensures IsRun(Straddling(rotation), 0) && Straddled(Straddling(rotation), rotation)
    ensures !AsksInTime(Straddling(rotation), 0, rotation)
    ensures Straddling(rotation)[2].sent == rotation + KEYS_EVERY + 5
  {
    var asks := Straddling(rotation);
    WeekBefore(rotation);
    SixHoursBetween(asks[0].answered, rotation - WEEK_SECS);
    SixHoursBetween(asks[1].answered, rotation);
    assert Follows(asks[0], asks[1], 0) && Follows(asks[1], asks[2], 0);
    assert asks[1].sent < rotation <= asks[1].answered;
  }

  // ---- the keys themselves ----

  /** Further calls only add keys. */
  lemma {:induction false} MadeGrows(times: seq<int>, more: seq<int>)
    ensures After(times).made <= After(times + more).made
  {
    if more == [] {
      assert times + more == times;
    } else {
      var n := |more| - 1;
      MadeGrows(times, more[..n]);
      assert (times + more)[..|times + more| - 1] == times + more[..n];
    }
  }

  /** The current key is the last made. */
  predicate IsLastMade(k: Keys) {
    k.made != [] && k.stored != [] && k.stored[0] == k.made[|k.made| - 1] && WeeksApart(k.made)
  }

  lemma SameUntilSameKey(a: Keys, b: Keys)
    requires IsLastMade(a) && IsLastMade(b) && a.made <= b.made && a.stored[0].until == b.stored[0].until
    ensures a.stored[0] == b.stored[0]
  {
    assert b.made[|a.made| - 1] == a.made[|a.made| - 1];
  }

  lemma CurrentKeyIs(times: seq<int>) returns (k: Keys)
    requires times != [] && NonDecreasing(times)
    ensures k == After(times) && IsLastMade(k) && k.stored[0].until == NextMondayIst(times[|times| - 1])
  {
    k := After(times);
    CallsKeepCurrent(times);
  }

  /** Two calls whose next Monday is the same find the same current key. */
  lemma SameMondaySameKey(times: seq<int>, more: seq<int>)
    requires times != [] && more != [] && NonDecreasing(times + more)
    requires NextMondayIst(times[|times| - 1]) == NextMondayIst(more[|more| - 1])
    ensures After(times).stored != [] && After(times + more).stored != []
    ensures After(times).stored[0] == After(times + more).stored[0]
  {
    NonDecreasingFirst(times, more);
    var a := CurrentKeyIs(times);
    var b := CurrentKeyIs(times + more);
    MadeGrows(times, more);
    SameUntilSameKey(a, b);
  }

  lemma NonDecreasingFirst(times: seq<int>, more: seq<int>)
    requires NonDecreasing(times + more)
    ensures NonDecreasing(times)
  {
    assert forall i :: 0 <= i < |times| ==> times[i] == (times + more)[i];
  }

  /** With answers at once, from one ask to the next the newest key the gateway was given is the
    * edge's current one, whatever other calls the edge had, but for the half minute after the
    * rotation that ends it. `times` are the edge's calls up to the ask, `more` those since. */
  lemma GatewayKeyIsCurrent(asks: seq<Ask>, late: nat, i: nat, times: seq<int>, more: seq<int>, now: nat)
    requires IsRun(asks, late) && i < |asks| - 1 && asks[i].sent == asks[i].answered
    requires asks[i].sent <= now < asks[i + 1].sent
    requires times != [] && times[|times| - 1] == asks[i].sent
    requires more != [] && more[|more| - 1] == now && NonDecreasing(times + more)
    ensures After(times).stored != [] && After(times + more).stored != []
    ensures var until := NextMondayIst(asks[i].sent);
            After(times).stored[0] == After(times + more).stored[0] || until <= now < until + 30 + late
  {
    var until := NextMondayIst(asks[i].sent);
    NextMondayIsNext(asks[i].sent);
    if i > 0 {
      AsksMoveForward(asks, late, 0, i);
    }
    assert Follows(asks[i], asks[i + 1], late);
    if now < until {
      RotationWithinWeek(now, until);
      SameMondaySameKey(times, more);
    } else {
      NextAskAfterRotation(asks[i], asks[i + 1], late, until);
      CallsKeepSome(times);
      CallsKeepSome(times + more);
    }
  }

  lemma CallsKeepSome(times: seq<int>)
    requires times != []
    ensures After(times).stored != []
  {
  }
}
