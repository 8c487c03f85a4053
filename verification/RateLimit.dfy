/** The account's rate limit over whole runs of calls, each loaded and saved before the next.
  * Calls that overlap are in `LimitOverSaves`. */
module RateLimit {
  import opened AccountRecords

  /** Call times as a clock gives them: never negative, never going back. */
  predicate ClockTimes(times: seq<int>) {
    && (forall i :: 0 <= i < |times| ==> 0 <= times[i])
    && forall i, j :: 0 <= i < j < |times| ==> times[i] <= times[j]
  }

  /** The window before call `n`; a new account's is empty and starts at zero. */
  function WindowAt(times: seq<int>, n: nat): Window
    requires n <= |times|
  {
    if n == 0 then Window(0, 0) else Counted(WindowAt(times, n - 1), times[n - 1])
  }

  predicate AllowedAt(times: seq<int>, n: nat)
    requires n < |times|
  {
    Allowed(WindowAt(times, n), times[n])
  }

  /** How many of the calls `from..to` were allowed. */
  function CountAllowed(times: seq<int>, from: nat, to: nat): nat
    requires from <= to <= |times|
  {
    if from == to then 0
    else CountAllowed(times, from, to - 1) + if AllowedAt(times, to - 1) then 1 else 0
  }

  /** The call that opened the window before call `n`. */
  function Opener(times: seq<int>, n: nat): (m: nat)
    requires n <= |times|
    ensures m <= n
  {
    if n == 0 then 0
    else if times[n - 1] >= WindowAt(times, n - 1).start + 60 then n - 1
    else Opener(times, n - 1)
  }

  /** The call that opened the window call `n` is counted in. */
  function OpenerOf(times: seq<int>, n: nat): (m: nat)
    requires n < |times|
    ensures m <= n
  {
    Opener(times, n + 1)
  }

  /** The window counts the calls since its opener, all within its minute. */
  lemma {:induction false} WindowCountsCalls(times: seq<int>, n: nat)
    requires n <= |times| && ClockTimes(times)
    ensures var w, m := WindowAt(times, n), Opener(times, n);
            && w.hits == n - m && 0 <= w.start
            && (m < n ==> w.start <= times[m] && times[n - 1] < w.start + 60)
            && (0 < m ==> m < n && w.start == times[m])
  {
    if n > 0 {
      WindowCountsCalls(times, n - 1);
    }
  }

  /** A window starts with its opener, but for the first one while the clock is in its first
    * minute. */
  lemma {:induction false} OpenerStarts(times: seq<int>, n: nat)
    requires n <= |times| && ClockTimes(times)
    ensures var w, m := WindowAt(times, n), Opener(times, n);
            m < n ==> w.start == times[m] || (m == 0 && w.start == 0 && times[n - 1] < 60)
  {
    if n > 0 {
      WindowCountsCalls(times, n - 1);
      OpenerStarts(times, n - 1);
    }
  }

  /** Past calls of a window, only its first sixty were allowed. */
  lemma AllowedInWindow(times: seq<int>, n: nat)
    requires n < |times| && ClockTimes(times)
    ensures AllowedAt(times, n) <==> n - OpenerOf(times, n) < ACCOUNT_RATE_PER_MINUTE
  {
    WindowCountsCalls(times, n);
  }

  /** No window allows more than sixty of its calls. */
  lemma {:induction false} AtMostSixtyInWindow(times: seq<int>, from: nat, to: nat, opener: nat)
    requires from <= to <= |times| && ClockTimes(times)
    requires opener <= from && forall k :: from <= k < to ==> OpenerOf(times, k) == opener
    ensures CountAllowed(times, from, to) <= ACCOUNT_RATE_PER_MINUTE
    ensures CountAllowed(times, from, to) <= if from <= opener + 60 then opener + 60 - from else 0
  {
    if from < to {
      AtMostSixtyInWindow(times, from, to - 1, opener);
      AllowedInWindow(times, to - 1);
      CountBelowLength(times, from, to - 1);
    }
  }

  lemma {:induction false} CountBelowLength(times: seq<int>, from: nat, to: nat)
    requires from <= to <= |times|
    ensures CountAllowed(times, from, to) <= to - from
  {
    if from < to {
      CountBelowLength(times, from, to - 1);
    }
  }

  /** The calls `from..to` are of one window, or of two of which the later opens a minute after
    * the earlier; and no more were allowed than is left of the first window and in the second. */
  predicate TwoWindowsAtMost(times: seq<int>, from: nat, to: nat)
    requires from < to <= |times|
  {
    var first, last := OpenerOf(times, from), OpenerOf(times, to - 1);
    var start := WindowAt(times, from + 1).start;
    var most := if from <= first + 60 then first + 60 - from else 0;
    if last == first
    then && CountAllowed(times, from, to) <= most && WindowAt(times, to).start == start
         && forall k :: from <= k < to ==> OpenerOf(times, k) == first
    else && from < last && start + 60 <= times[last]
         && CountAllowed(times, from, to) <= most + if to - last < 60 then to - last else 60
  }

  lemma SameWindowAgain(times: seq<int>, from: nat, to: nat)
    requires from < to < |times| && ClockTimes(times) && TwoWindowsAtMost(times, from, to)
    requires OpenerOf(times, to) == OpenerOf(times, from)
    ensures TwoWindowsAtMost(times, from, to + 1)
  {
    WindowCountsCalls(times, to);
    AtMostSixtyInWindow(times, from, to + 1, OpenerOf(times, from));
  }

  lemma LaterWindowAgain(times: seq<int>, from: nat, to: nat)
    requires from < to < |times| && ClockTimes(times) && TwoWindowsAtMost(times, from, to)
    requires times[to] < times[from] + 60 && OpenerOf(times, to) != OpenerOf(times, from)
    ensures TwoWindowsAtMost(times, from, to + 1)
  {
    WindowCountsCalls(times, to);
    AllowedInWindow(times, to);
  }

  /** Any sixty seconds see at most two windows. */
  lemma {:induction false} CountInMinute(times: seq<int>, from: nat, to: nat)
    requires from < to <= |times| && ClockTimes(times)
    requires times[to - 1] < times[from] + 60
    ensures TwoWindowsAtMost(times, from, to)
  {
    if to == from + 1 {
      AtMostSixtyInWindow(times, from, to, OpenerOf(times, from));
    } else {
      CountInMinute(times, from, to - 1);
      if OpenerOf(times, to - 1) == OpenerOf(times, from) {
        SameWindowAgain(times, from, to - 1);
      } else {
        LaterWindowAgain(times, from, to - 1);
      }
    }
  }

  /** At most 120 calls are allowed in any sixty seconds, and one fewer in any that begin past the
    * clock's first minute: the call that opens a window is one of its sixty, and the next window
    * opens a minute later. */
  lemma AtMostTwiceTheRate(times: seq<int>, from: nat, to: nat)
    requires from < to <= |times| && ClockTimes(times)
    requires times[to - 1] < times[from] + 60
    ensures CountAllowed(times, from, to) <= 2 * ACCOUNT_RATE_PER_MINUTE
    ensures 60 <= times[from] ==> CountAllowed(times, from, to) <= 2 * ACCOUNT_RATE_PER_MINUTE - 1
  {
    CountInMinute(times, from, to);
    OpenerStarts(times, from + 1);
  }

  /** A call that opens a window, a burst at the window's last second, and one a second later. */
  function Burst(start: int): (times: seq<int>)
    ensures |times| == 121
  {
    seq(121, i => if i == 0 then start else if i <= 60 then start + 59 else start + 60)
  }

  /** The bound of 119 is reached, whenever the window opens: two seconds allow that many. */
  lemma TwiceTheRateHappens(start: int)
    requires 60 <= start
    ensures ClockTimes(Burst(start)) && 60 <= Burst(start)[0] && Burst(start)[120] < Burst(start)[1] + 60
    ensures CountAllowed(Burst(start), 1, 121) == 2 * ACCOUNT_RATE_PER_MINUTE - 1
  {
    BurstCounts(start, 121);
  }

  /** A burst in the clock's first minute, whose window no call opened, and one just after. */
  function EarlyBurst(at: int): (times: seq<int>)
    ensures |times| == 120
  {
    seq(120, i => if i < 60 then at else 60)
  }

  /** There, and only there, sixty seconds allow the full 120. */
  lemma TwiceTheRateAtTheStart(at: int)
    requires 1 <= at < 60
    ensures ClockTimes(EarlyBurst(at)) && EarlyBurst(at)[119] < EarlyBurst(at)[0] + 60
    ensures CountAllowed(EarlyBurst(at), 0, 120) == 2 * ACCOUNT_RATE_PER_MINUTE
  {
    EarlyBurstCounts(at, 120);
  }

  lemma {:induction false} BurstCounts(start: int, n: nat)
    requires 60 <= start && 1 <= n <= 121
    ensures WindowAt(Burst(start), n) == if n <= 61 then Window(start, n) else Window(start + 60, n - 61)
    ensures CountAllowed(Burst(start), 1, n) == if n <= 60 then n - 1 else if n == 61 then 59 else n - 2
  {
    if n > 1 {
      BurstCounts(start, n - 1);
    }
  }

  lemma {:induction false} EarlyBurstCounts(at: int, n: nat)
    requires 1 <= at < 60 && n <= 120
    ensures WindowAt(EarlyBurst(at), n) == if n <= 60 then Window(0, n) else Window(60, n - 60)
    ensures CountAllowed(EarlyBurst(at), 0, n) == n
  {
    if n > 0 {
      EarlyBurstCounts(at, n - 1);
    }
  }

  /** A caller refused has made more than sixty calls in less than sixty seconds. */
  lemma RefusedIsTooMany(times: seq<int>, n: nat)
    requires n < |times| && ClockTimes(times)
    requires !AllowedAt(times, n)
    ensures n >= ACCOUNT_RATE_PER_MINUTE
    ensures times[n] < times[n - ACCOUNT_RATE_PER_MINUTE] + 60
  {
    WindowCountsCalls(times, n);
    AllowedInWindow(times, n);
  }
}
