/** The rate limit where calls overlap. A call loads the account, counts itself in its own copy,
  * waits on the network, and then saves: its window is merged, column by column, into whatever
  * the table holds by then. */
module LimitOverSaves {
  import opened Options
  import opened AccountRecords
  import opened AccountStore
  import opened AccountMerging
  import opened RateLimit
  import opened Lists
  import SessionRequests

  // ---- one save ----

  /** The window a row of the account table holds. */
  function WindowOf(row: Columns): Window {
    Window(OrZero(AsInt(row[WindowStart])), OrZero(AsInt(row[WindowHits])))
  }

  function MergedNumber(stored: int, base: int, doc: int): int {
    if doc != base then doc else stored
  }

  /** A window saved over `stored` by a request that loaded `base`. */
  function MergedWindow(stored: Window, base: Window, doc: Window): Window {
    Window(MergedNumber(stored.start, base.start, doc.start), MergedNumber(stored.hits, base.hits, doc.hits))
  }

  /** A new account's window, or one a call opened. */
  predicate InUse(window: Window) {
    0 <= window.start && 0 <= window.hits && (window.hits == 0 ==> window.start == 0)
  }

  predicate HoldsWindow(row: Columns) {
    row[WindowStart].Int? && row[WindowHits].Int? && 0 <= row[WindowStart].n && 0 <= row[WindowHits].n
  }

  lemma WindowColumns(doc: Account)
    ensures ViewOf(doc).columns[WindowStart] == Int(doc.windowStart)
    ensures ViewOf(doc).columns[WindowHits] == Int(doc.windowHits)
  {
  }

  lemma MergedRow(merged: Columns, stored: Columns, was: Window, now: Window)
    requires HoldsWindow(stored) && 0 <= was.start && 0 <= was.hits && 0 <= now.start && 0 <= now.hits
    requires merged[WindowStart] == MergeColumn(stored[WindowStart], Int(was.start), Int(now.start))
    requires merged[WindowHits] == MergeColumn(stored[WindowHits], Int(was.hits), Int(now.hits))
    ensures HoldsWindow(merged) && WindowOf(merged) == MergedWindow(WindowOf(stored), was, now)
  {
  }

  /** What the account's save makes of its two window columns; a save by a request that did not
    * count itself leaves them. */
  lemma SaveMergesWindow(merged: View, stored: View, base: Account, doc: Account)
    requires IsMerged(merged, stored, ViewOf(base), ViewOf(doc)) && HoldsWindow(stored.columns)
    requires 0 <= base.windowStart && 0 <= base.windowHits && 0 <= doc.windowStart && 0 <= doc.windowHits
    ensures var was, now := Window(base.windowStart, base.windowHits), Window(doc.windowStart, doc.windowHits);
            && HoldsWindow(merged.columns)
            && WindowOf(merged.columns) == MergedWindow(WindowOf(stored.columns), was, now)
            && (was == now ==> WindowOf(merged.columns) == WindowOf(stored.columns))
  {
    WindowColumns(base);
    WindowColumns(doc);
    MergedRow(merged.columns, stored.columns, Window(base.windowStart, base.windowHits),
              Window(doc.windowStart, doc.windowHits));
  }

  /** A call is counted as if it had loaded what it saves over: both in a window still open that
    * has as many hits, or both windows over, with the same first hit or another to write. */
  predicate CountsOn(stored: Window, base: Window, at: int) {
    if at < base.start + 60 then at < stored.start + 60 && stored.hits == base.hits
    else at >= stored.start + 60 && (base.hits == 1 ==> stored.hits == 1)
  }

  /** Exactly then the save counts the call, and its answer is the one the stored window gives. */
  lemma SaveCountsExactly(stored: Window, base: Window, at: int)
    requires InUse(stored) && InUse(base) && 0 <= at
    ensures MergedWindow(stored, base, Counted(base, at)) == Counted(stored, at) <==> CountsOn(stored, base, at)
    ensures CountsOn(stored, base, at) ==> Allowed(base, at) == Allowed(stored, at)
  {
  }

  // ---- runs ----

  /** A call between its load and its save. */
  datatype Call = Call(base: Window, at: int)

  /** `times` and `allowed`: the calls saved so far, in the order of their saves. */
  datatype State = State(stored: Window, live: map<nat, Call>, times: seq<int>, allowed: seq<bool>, clock: int)

  datatype Step =
    | LoadCall(r: nat, now: int)
    | SaveCall(r: nat)

  const INITIAL := State(Window(0, 0), map[], [], [], 0)

  predicate Enabled(s: State, step: Step) {
    match step
    case LoadCall(r, now) => r !in s.live && s.clock <= now
    case SaveCall(r) => r in s.live
  }

  function Next(s: State, step: Step): State
    requires Enabled(s, step)
  {
    match step
    case LoadCall(r, now) => s.(live := s.live[r := Call(s.stored, now)], clock := now)
    case SaveCall(r) =>
      var call := s.live[r];
      s.(stored := MergedWindow(s.stored, call.base, Counted(call.base, call.at)), live := s.live - {r},
         times := s.times + [call.at], allowed := s.allowed + [Allowed(call.base, call.at)])
  }

  /** The record a session call saves: counted only, when it is refused, or also with its key used
    * and a cached session found to be over gone. */
  predicate SavedByCall(base: Account, keyHash: string, at: int, check: SessionRequests.CacheCheck, doc: Account) {
    var counted := base.CountedCall(at);
    if Allowed(Window(base.windowStart, base.windowHits), at)
    then doc == SessionRequests.CheckedDoc(counted.UsedKey(keyHash, at), at, check)
    else doc == counted
  }

  /** A session call's own save of the account is the `SaveCall` of these runs: it leaves the
    * window that step leaves. */
  lemma SessionCallsAreSaves(s: State, r: nat, merged: View, stored: View, base: Account, keyHash: string,
                             check: SessionRequests.CacheCheck, doc: Account)
    requires r in s.live && s.stored == WindowOf(stored.columns) && HoldsWindow(stored.columns)
    requires s.live[r].base == Window(base.windowStart, base.windowHits)
    requires InUse(s.live[r].base) && 0 <= s.live[r].at && SavedByCall(base, keyHash, s.live[r].at, check, doc)
    requires IsMerged(merged, stored, ViewOf(base), ViewOf(doc))
    ensures HoldsWindow(merged.columns)
    ensures Next(s, SaveCall(r)).stored == WindowOf(merged.columns)
  {
    assert Window(doc.windowStart, doc.windowHits) == Counted(s.live[r].base, s.live[r].at);
    SaveMergesWindow(merged, stored, base, doc);
  }

  /** The state after a run, if every step of it can be taken. */
  function After(steps: seq<Step>): Option<State> {
    if steps == [] then Some(INITIAL)
    else
      match After(steps[..|steps| - 1])
      case None => None
      case Some(s) => if Enabled(s, steps[|steps| - 1]) then Some(Next(s, steps[|steps| - 1])) else None
  }

  /** The call a handler is at: the window stored when it was last loaded, and when that was. */
  function Loaded(steps: seq<Step>, r: nat): Option<Call>
    requires After(steps).Some?
  {
    if steps == [] then None
    else
      var before, last := steps[..|steps| - 1], steps[|steps| - 1];
      match last
      case LoadCall(q, now) => if q == r then Some(Call(After(before).value.stored, now)) else Loaded(before, r)
      case SaveCall(q) => if q == r then None else Loaded(before, r)
  }

  /** The calls a run saves, in the order of their saves. */
  function Saved(steps: seq<Step>): seq<Option<Call>>
    requires After(steps).Some?
  {
    if steps == [] then []
    else
      var before, last := steps[..|steps| - 1], steps[|steps| - 1];
      Saved(before) + if last.SaveCall? then [Loaded(before, last.r)] else []
  }

  lemma {:induction false} LiveAreLoaded(steps: seq<Step>, r: nat)
    requires After(steps).Some?
    ensures Lookup(After(steps).value.live, r) == Loaded(steps, r)
  {
    if steps != [] {
      LiveAreLoaded(steps[..|steps| - 1], r);
    }
  }

  /** What a run records is what its steps do: the calls saved, at their times, each answered by
    * the window it had loaded. */
  lemma {:induction false} RunsRecordSaves(steps: seq<Step>)
    requires After(steps).Some?
    ensures var s, saved := After(steps).value, Saved(steps);
            && |s.times| == |s.allowed| == |saved|
            && forall k :: 0 <= k < |saved| ==>
                 && saved[k].Some? && s.times[k] == saved[k].value.at
                 && s.allowed[k] == Allowed(saved[k].value.base, saved[k].value.at)
  {
    if steps != [] {
      var before, last := steps[..|steps| - 1], steps[|steps| - 1];
      RunsRecordSaves(before);
      if last.SaveCall? {
        LiveAreLoaded(before, last.r);
      }
    }
  }

  /** Windows in use, and as long as no call was counted every live one loaded the first window. */
  predicate Sane(s: State) {
    && InUse(s.stored) && 0 <= s.clock
    && forall r <- s.live ::
         && InUse(s.live[r].base) && 0 <= s.live[r].at
         && (s.stored.hits == 0 ==> s.live[r].base == Window(0, 0))
  }

  lemma {:induction false} RunsAreSane(steps: seq<Step>)
    requires After(steps).Some?
    ensures Sane(After(steps).value)
  {
    if steps != [] {
      RunsAreSane(steps[..|steps| - 1]);
    }
  }

  /** Every save of the run finds a window on which it counts its call. */
  predicate AllCount(steps: seq<Step>)
    requires After(steps).Some?
  {
    steps != [] ==>
      var before, last := steps[..|steps| - 1], steps[|steps| - 1];
      && AllCount(before)
      && (last.SaveCall? ==>
            var s := After(before).value;
            CountsOn(s.stored, s.live[last.r].base, s.live[last.r].at))
  }

  /** At every point of the run the stored window is the one that counts the calls saved, one after
    * another. */
  predicate AlwaysCounted(steps: seq<Step>)
    requires After(steps).Some?
  {
    var s := After(steps).value;
    && s.stored == WindowAt(s.times, |s.times|)
    && (steps != [] ==> AlwaysCounted(steps[..|steps| - 1]))
  }

  lemma {:induction false} WindowOfPrefix(times: seq<int>, more: seq<int>, n: nat)
    requires n <= |times|
    ensures WindowAt(times + more, n) == WindowAt(times, n)
  {
    if n > 0 {
      WindowOfPrefix(times, more, n - 1);
    }
  }

  /** On a counted window a save leaves a counted one exactly when it counts its call. */
  lemma SaveStaysCounted(s: State, r: nat)
    requires Sane(s) && r in s.live && s.stored == WindowAt(s.times, |s.times|)
    ensures var t := Next(s, SaveCall(r));
            t.stored == WindowAt(t.times, |t.times|) <==> CountsOn(s.stored, s.live[r].base, s.live[r].at)
  {
    WindowOfPrefix(s.times, [s.live[r].at], |s.times|);
    SaveCountsExactly(s.stored, s.live[r].base, s.live[r].at);
  }

  /** Over every run: the stored window always counts the calls one after another exactly when
    * every save counts its call. */
  lemma {:induction false} CountedExactlyWhenAllCount(steps: seq<Step>)
    requires After(steps).Some?
    ensures AlwaysCounted(steps) <==> AllCount(steps)
  {
    if steps != [] {
      var before, last := steps[..|steps| - 1], steps[|steps| - 1];
      CountedExactlyWhenAllCount(before);
      RunsAreSane(before);
      var s := After(before).value;
      if last.SaveCall? && s.stored == WindowAt(s.times, |s.times|) {
        SaveStaysCounted(s, last.r);
      }
    }
  }

  /** The calls saved were answered as the serial limit answers them. */
  predicate AnsweredSerially(s: State) {
    |s.allowed| == |s.times| && forall k :: 0 <= k < |s.times| ==> s.allowed[k] == AllowedAt(s.times, k)
  }

  lemma SaveAnswersSerially(s: State, r: nat)
    requires Sane(s) && r in s.live && s.stored == WindowAt(s.times, |s.times|) && AnsweredSerially(s)
    requires CountsOn(s.stored, s.live[r].base, s.live[r].at)
    ensures AnsweredSerially(Next(s, SaveCall(r)))
  {
    var at, t := s.live[r].at, Next(s, SaveCall(r));
    SaveCountsExactly(s.stored, s.live[r].base, at);
    forall k | 0 <= k < |t.times| ensures t.allowed[k] == AllowedAt(t.times, k) {
      WindowOfPrefix(s.times, [at], k);
    }
  }

  /** Then every call is answered as the serial limit answers it. */
  lemma {:induction false} AllCountAnswers(steps: seq<Step>)
    requires After(steps).Some? && AllCount(steps)
    ensures AnsweredSerially(After(steps).value)
  {
    if steps != [] {
      var before, last := steps[..|steps| - 1], steps[|steps| - 1];
      AllCountAnswers(before);
      if last.SaveCall? {
        RunsAreSane(before);
        CountedExactlyWhenAllCount(before);
        SaveAnswersSerially(After(before).value, last.r);
      }
    }
  }

  function Allowances(allowed: seq<bool>, from: nat, to: nat): nat
    requires from <= to <= |allowed|
  {
    if from == to then 0 else Allowances(allowed, from, to - 1) + if allowed[to - 1] then 1 else 0
  }

  lemma {:induction false} AllowancesAreCounted(s: State, from: nat, to: nat)
    requires AnsweredSerially(s) && from <= to <= |s.times|
    ensures Allowances(s.allowed, from, to) == CountAllowed(s.times, from, to)
  {
    if from < to {
      AllowancesAreCounted(s, from, to - 1);
    }
  }

  /** In a run whose saves all count, with calls saved in the order of their times, any sixty
    * seconds allow at most 120 calls, and 119 past the clock's first minute. */
  lemma AllCountIsLimited(steps: seq<Step>, from: nat, to: nat)
    requires After(steps).Some? && AllCount(steps) && ClockTimes(After(steps).value.times)
    requires var times := After(steps).value.times; from < to <= |times| && times[to - 1] < times[from] + 60
    ensures var s := After(steps).value;
            && to <= |s.allowed|
            && Allowances(s.allowed, from, to) <= 2 * ACCOUNT_RATE_PER_MINUTE - if 60 <= s.times[from] then 1 else 0
  {
    AllCountAnswers(steps);
    AllowancesAreCounted(After(steps).value, from, to);
    AtMostTwiceTheRate(After(steps).value.times, from, to);
  }

  /** And a call is refused only after sixty others in less than sixty seconds. */
  lemma AllCountRefusesTooMany(steps: seq<Step>, n: nat)
    requires After(steps).Some? && AllCount(steps) && ClockTimes(After(steps).value.times)
    requires n < |After(steps).value.allowed| && !After(steps).value.allowed[n]
    ensures var times := After(steps).value.times;
            n >= ACCOUNT_RATE_PER_MINUTE && n < |times| && times[n] < times[n - ACCOUNT_RATE_PER_MINUTE] + 60
  {
    AllCountAnswers(steps);
    RefusedIsTooMany(After(steps).value.times, n);
  }

  // ---- undisturbed runs ----

  /** Every call saves over the window it loaded: no other save of the window came between, as
    * each moves it on. */
  predicate Undisturbed(steps: seq<Step>)
    requires After(steps).Some?
  {
    steps != [] ==>
      var before, last := steps[..|steps| - 1], steps[|steps| - 1];
      Undisturbed(before) && (last.SaveCall? ==> After(before).value.live[last.r].base == After(before).value.stored)
  }

  predicate Progress(a: Window, b: Window) {
    a.start < b.start || (a.start == b.start && a.hits < b.hits)
  }

  /** A live call has loaded the stored window after the last save, or an earlier one. */
  predicate InOrder(s: State) {
    && 0 <= s.clock && s.stored.start <= s.clock
    && ClockTimes(s.times) && (s.times != [] ==> s.times[|s.times| - 1] <= s.clock)
    && forall r <- s.live ::
         && 0 <= s.live[r].at <= s.clock
         && (if s.live[r].base == s.stored then s.times != [] ==> s.times[|s.times| - 1] <= s.live[r].at
             else Progress(s.live[r].base, s.stored))
  }

  lemma SaveKeepsOrder(s: State, r: nat)
    requires InOrder(s) && r in s.live && s.live[r].base == s.stored
    ensures InOrder(Next(s, SaveCall(r)))
  {
    var at, t := s.live[r].at, Next(s, SaveCall(r));
    assert t.stored == Counted(s.stored, at) && Progress(s.stored, t.stored);
  }

  lemma {:induction false} UndisturbedKeepsOrder(steps: seq<Step>)
    requires After(steps).Some? && Undisturbed(steps)
    ensures InOrder(After(steps).value)
  {
    if steps != [] {
      var before, last := steps[..|steps| - 1], steps[|steps| - 1];
      UndisturbedKeepsOrder(before);
      if last.SaveCall? {
        SaveKeepsOrder(After(before).value, last.r);
      }
    }
  }

  lemma {:induction false} UndisturbedAllCount(steps: seq<Step>)
    requires After(steps).Some? && Undisturbed(steps)
    ensures AllCount(steps)
  {
    if steps != [] {
      UndisturbedAllCount(steps[..|steps| - 1]);
    }
  }

  /** In every run whose saves are undisturbed the calls are those of the serial limit: the
    * window counts them in the order of their saves, which is that of their times. */
  lemma UndisturbedIsSerial(steps: seq<Step>)
    requires After(steps).Some? && Undisturbed(steps)
    ensures AllCount(steps) && AlwaysCounted(steps)
    ensures ClockTimes(After(steps).value.times) && AnsweredSerially(After(steps).value)
  {
    UndisturbedAllCount(steps);
    CountedExactlyWhenAllCount(steps);
    AllCountAnswers(steps);
    UndisturbedKeepsOrder(steps);
  }

  /** So they meet both limits. */
  lemma UndisturbedIsLimited(steps: seq<Step>, from: nat, to: nat)
    requires After(steps).Some? && Undisturbed(steps)
    requires var times := After(steps).value.times; from < to <= |times| && times[to - 1] < times[from] + 60
    ensures var s := After(steps).value;
            && to <= |s.allowed|
            && Allowances(s.allowed, from, to) <= 2 * ACCOUNT_RATE_PER_MINUTE - if 60 <= s.times[from] then 1 else 0
  {
    UndisturbedIsSerial(steps);
    AllCountIsLimited(steps, from, to);
  }

  lemma UndisturbedRefusesTooMany(steps: seq<Step>, n: nat)
    requires After(steps).Some? && Undisturbed(steps)
    requires n < |After(steps).value.allowed| && !After(steps).value.allowed[n]
    ensures var times := After(steps).value.times;
            n >= ACCOUNT_RATE_PER_MINUTE && n < |times| && times[n] < times[n - ACCOUNT_RATE_PER_MINUTE] + 60
  {
    UndisturbedIsSerial(steps);
    AllCountRefusesTooMany(steps, n);
  }

  // ---- disturbed runs ----

  /** A run that can be taken one step further. */
  lemma OneMore(steps: seq<Step>, s: State, step: Step)
    requires After(steps) == Some(s) && Enabled(s, step)
    ensures After(steps + [step]) == Some(Next(s, step))
  {
    assert (steps + [step])[..|steps|] == steps;
  }

  /** `n` calls at second 100 that all load before any of them saves. */
  function Loads(n: nat): seq<Step> {
    if n == 0 then [] else Loads(n - 1) + [LoadCall(n - 1, 100)]
  }

  /** Of `n` such calls the first `saved` have saved. */
  ghost predicate Overlapping(s: State, n: nat, saved: nat) {
    && s.stored == (if saved == 0 then Window(0, 0) else Window(100, 1)) && s.clock <= 100
    && |s.times| == |s.allowed| == saved && (forall k :: 0 <= k < saved ==> s.times[k] == 100 && s.allowed[k])
    && (forall r: nat :: r in s.live <==> saved <= r < n)
    && forall r: nat :: r in s.live ==> s.live[r] == Call(Window(0, 0), 100)
  }

  lemma NoneLoaded()
    ensures After(Loads(0)) == Some(INITIAL) && Overlapping(INITIAL, 0, 0)
  {
  }

  lemma OneMoreLoads(s: State, n: nat)
    requires Overlapping(s, n, 0)
    ensures Enabled(s, LoadCall(n, 100)) && Overlapping(Next(s, LoadCall(n, 100)), n + 1, 0)
  {
  }

  lemma OneMoreSaves(s: State, n: nat, saved: nat)
    requires Overlapping(s, n, saved) && saved < n
    ensures Enabled(s, SaveCall(saved)) && Overlapping(Next(s, SaveCall(saved)), n, saved + 1)
  {
  }

  lemma {:induction false} LoadsOverlap(n: nat) returns (s: State)
    ensures After(Loads(n)) == Some(s) && Overlapping(s, n, 0)
  {
    if n == 0 {
      s := INITIAL;
      NoneLoaded();
    } else {
      var before := LoadsOverlap(n - 1);
      OneMoreLoads(before, n - 1);
      OneMore(Loads(n - 1), before, LoadCall(n - 1, 100));
      s := Next(before, LoadCall(n - 1, 100));
    }
  }

  function LoadsThenSaves(n: nat, saved: nat): seq<Step> {
    if saved == 0 then Loads(n) else LoadsThenSaves(n, saved - 1) + [SaveCall(saved - 1)]
  }

  /** Any number of calls that overlap are all allowed in one second, and the window then counts
    * one: hits are lost. */
  lemma {:induction false} OverlapIsUnlimited(n: nat, saved: nat) returns (s: State)
    requires saved <= n
    ensures After(LoadsThenSaves(n, saved)) == Some(s)
    ensures |s.times| == |s.allowed| == saved && forall k :: 0 <= k < saved ==> s.times[k] == 100 && s.allowed[k]
    ensures 0 < saved ==> s.stored == Window(100, 1)
    ensures Overlapping(s, n, saved)
  {
    if saved == 0 {
      s := LoadsOverlap(n);
    } else {
      var before := OverlapIsUnlimited(n, saved - 1);
      OneMoreSaves(before, n, saved - 1);
      OneMore(LoadsThenSaves(n, saved - 1), before, SaveCall(saved - 1));
      s := Next(before, SaveCall(saved - 1));
    }
  }

  /** `n` calls at `at`, each saved before the next loads. */
  function InTurn(steps: seq<Step>, n: nat, at: int, r: nat): seq<Step> {
    if n == 0 then steps else InTurn(steps, n - 1, at, r) + [LoadCall(r, at)] + [SaveCall(r)]
  }

  /** From `s` to `t` there were `n` calls at `at` in a window still open. */
  ghost predicate Counting(s: State, t: State, n: nat, at: int) {
    && t.stored == s.stored.(hits := s.stored.hits + n) && t.live == s.live && s.clock <= t.clock <= at
    && |t.times| == |t.allowed| == |s.times| + n
    && (forall k :: 0 <= k < |s.times| ==> t.times[k] == s.times[k] && k < |s.allowed| && t.allowed[k] == s.allowed[k])
    && forall k :: |s.times| <= k < |t.times| ==>
         t.times[k] == at && t.allowed[k] == (s.stored.hits + k - |s.times| < ACCOUNT_RATE_PER_MINUTE)
  }

  lemma OneMoreCounts(s: State, t: State, n: nat, at: int, r: nat)
    requires Counting(s, t, n, at) && at < s.stored.start + 60 && r !in s.live
    ensures Enabled(t, LoadCall(r, at)) && Enabled(Next(t, LoadCall(r, at)), SaveCall(r))
    ensures Counting(s, Next(Next(t, LoadCall(r, at)), SaveCall(r)), n + 1, at)
  {
    var u := Next(Next(t, LoadCall(r, at)), SaveCall(r));
    assert t.live[r := Call(t.stored, at)] - {r} == t.live;
    assert u.times == t.times + [at] && u.allowed == t.allowed + [t.stored.hits < ACCOUNT_RATE_PER_MINUTE];
    forall k | |s.times| <= k < |u.times|
      ensures u.times[k] == at && u.allowed[k] == (s.stored.hits + k - |s.times| < ACCOUNT_RATE_PER_MINUTE)
    {
      assert k < |t.times| ==> u.times[k] == t.times[k] && u.allowed[k] == t.allowed[k];
    }
  }

  lemma {:induction false} InTurnCounts(steps: seq<Step>, s: State, n: nat, at: int, r: nat) returns (t: State)
    requires After(steps) == Some(s) && |s.times| == |s.allowed|
    requires s.clock <= at < s.stored.start + 60 && r !in s.live
    ensures After(InTurn(steps, n, at, r)) == Some(t) && Counting(s, t, n, at)
  {
    if n == 0 {
      t := s;
    } else {
      var before := InTurnCounts(steps, s, n - 1, at, r);
      OneMoreCounts(s, before, n - 1, at, r);
      var fewer, loaded := InTurn(steps, n - 1, at, r), Next(before, LoadCall(r, at));
      OneMore(fewer, before, LoadCall(r, at));
      OneMore(fewer + [LoadCall(r, at)], loaded, SaveCall(r));
      t := Next(loaded, SaveCall(r));
    }
  }

  /** `first` calls at second 100. */
  function FirstCalls(first: nat): seq<Step>
    requires 1 <= first
  {
    InTurn([] + [LoadCall(0, 100)] + [SaveCall(0)], first - 1, 100, 0)
  }

  lemma FirstCallsCount(first: nat) returns (s: State)
    requires 1 <= first < ACCOUNT_RATE_PER_MINUTE
    ensures After(FirstCalls(first)) == Some(s)
    ensures s.stored == Window(100, first) && s.live == map[] && s.clock <= 100
    ensures |s.times| == |s.allowed| == first && forall k :: 0 <= k < first ==> s.times[k] == 100
  {
    var loaded := Next(INITIAL, LoadCall(0, 100));
    OneMore([], INITIAL, LoadCall(0, 100));
    OneMore([] + [LoadCall(0, 100)], loaded, SaveCall(0));
    s := InTurnCounts([] + [LoadCall(0, 100)] + [SaveCall(0)], Next(loaded, SaveCall(0)), first - 1, 100, 0);
  }

  /** Then one loads at 155; one at 160 opens a window and saves; and the one from 155 saves its
    * count of the window before. */
  function Mixed(first: nat): seq<Step>
    requires 1 <= first
  {
    FirstCalls(first) + [LoadCall(1, 155)] + [LoadCall(2, 160)] + [SaveCall(2)] + [SaveCall(1)]
  }

  lemma MixedCounts(first: nat) returns (s: State)
    requires 1 < first < ACCOUNT_RATE_PER_MINUTE
    ensures After(Mixed(first)) == Some(s)
    ensures s.stored == Window(160, first + 1) && s.live == map[] && s.clock == 160
    ensures |s.times| == |s.allowed| == first + 2 && forall k :: 0 <= k < first ==> s.times[k] == 100
  {
    var start := FirstCallsCount(first);
    var steps := FirstCalls(first);
    var a := Next(start, LoadCall(1, 155));
    var b := Next(a, LoadCall(2, 160));
    var c := Next(b, SaveCall(2));
    OneMore(steps, start, LoadCall(1, 155));
    OneMore(steps + [LoadCall(1, 155)], a, LoadCall(2, 160));
    OneMore(steps + [LoadCall(1, 155)] + [LoadCall(2, 160)], b, SaveCall(2));
    OneMore(steps + [LoadCall(1, 155)] + [LoadCall(2, 160)] + [SaveCall(2)], c, SaveCall(1));
    s := Next(c, SaveCall(1));
  }

  /** The hits of the window before are carried into the next: of calls one after another in it,
    * one is refused though the sixty seconds before it saw only `61 - first` others. */
  lemma MixedWindowRefuses(first: nat) returns (s: State)
    requires 1 < first < ACCOUNT_RATE_PER_MINUTE
    ensures After(InTurn(Mixed(first), ACCOUNT_RATE_PER_MINUTE - first, 160, 0)) == Some(s)
    ensures |s.times| == |s.allowed| == 62 && !s.allowed[61]
    ensures forall k :: 0 <= k < first ==> s.times[61] >= s.times[k] + 60
  {
    var mixed := MixedCounts(first);
    s := InTurnCounts(Mixed(first), mixed, ACCOUNT_RATE_PER_MINUTE - first, 160, 0);
  }
}
