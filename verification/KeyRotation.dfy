/** The gateway's weekly keys: the edge makes and drops them, the gateway asks for them on a
  * schedule of its own, counted from the same Monday. */
module KeyRotation {
  import opened Options
  import opened Calendar

  const DAY_SECS := 24 * 3600
  const WEEK_SECS := 7 * DAY_SECS
  /** Midnight, Indian time, at the start of Monday 8 January 2024. */
  const MONDAY_IST := 1_704_652_200
  const IST_OFFSET := 5 * 3600 + 30 * 60

  /** When the week of `now` ends. */
  function NextMondayIst(now: int): int {
    MONDAY_IST + ((now - MONDAY_IST) / WEEK_SECS + 1) * WEEK_SECS
  }

  predicate IsRotation(time: int) {
    (time - MONDAY_IST) % WEEK_SECS == 0
  }

  /** The number both sides count from is 2024-01-07 18:30 UTC, and IST days and weeks begin at
    * every instant a week apart from it: day 4 of each week of day numbers is a Monday. */
  lemma RotationsAreMondays(time: int)
    requires IsRotation(time)
    ensures MONDAY_IST == DayNumber(Date(2024, 1, 7)) * DAY_SECS + 18 * 3600 + 30 * 60
    ensures (time + IST_OFFSET) % DAY_SECS == 0 && (time + IST_OFFSET) / DAY_SECS % 7 == 4
    ensures (DayNumber(Date(2024, 1, 8)) % 7) == 4
  {
    var weeks := (time - MONDAY_IST) / WEEK_SECS;
    assert time == MONDAY_IST + weeks * WEEK_SECS;
    assert time + IST_OFFSET == DAY_SECS * (19_730 + 7 * weeks);
    Quotient(time + IST_OFFSET, DAY_SECS, 19_730 + 7 * weeks, 0);
  }

  lemma NextMondayIsNext(now: int)
    ensures IsRotation(NextMondayIst(now))
    ensures now < NextMondayIst(now) <= now + WEEK_SECS
  {
    var weeks := (now - MONDAY_IST) / WEEK_SECS + 1;
    Quotient(weeks * WEEK_SECS, WEEK_SECS, weeks, 0);
  }

  /** Only the next Monday is a rotation less than a week away. */
  lemma RotationWithinWeek(now: int, time: int)
    requires IsRotation(time) && now < time <= now + WEEK_SECS
    ensures time == NextMondayIst(now)
  {
    var weeks := (time - MONDAY_IST) / WEEK_SECS;
    assert time - MONDAY_IST == WEEK_SECS * weeks;
    Quotient(now - MONDAY_IST, WEEK_SECS, weeks - 1, now - MONDAY_IST - WEEK_SECS * (weeks - 1));
  }

  lemma RotationsAWeekApart(a: int, b: int)
    requires IsRotation(a) && IsRotation(b) && a < b
    ensures a + WEEK_SECS <= b
  {
    if b < a + WEEK_SECS {
      RotationWithinWeek(a, b);
      RotationWithinWeek(a, a + WEEK_SECS);
    }
  }

  // ---- the edge's keys ----

  /** A key pair, numbered as made, current until `until`. */
  datatype Key = Key(serial: nat, until: int)

  function LaterThan(keys: seq<Key>, time: int): seq<Key> {
    if keys == [] then []
    else (if keys[0].until > time then [keys[0]] else []) + LaterThan(keys[1..], time)
  }

  function FirstOf(keys: seq<Key>): seq<Key> {
    if keys == [] then [] else [keys[0]]
  }

  /** Nothing changes while the first key lasts; after that a new key is put in front, and of the
    * old ones the first less than a week past its end stays. */
  function Rotated(keys: seq<Key>, now: int, serial: nat): seq<Key> {
    if keys != [] && keys[0].until > now then keys
    else [Key(serial, NextMondayIst(now))] + FirstOf(LaterThan(keys, now - WEEK_SECS))
  }

  /** `made`: every key so far. */
  datatype Keys = Keys(stored: seq<Key>, made: seq<Key>)

  function Called(k: Keys, now: int): Keys {
    var keys := Rotated(k.stored, now, |k.made|);
    Keys(keys, if keys == k.stored then k.made else k.made + [keys[0]])
  }

  /** After calls of `keys()` at these times. */
  function After(times: seq<int>): Keys {
    if times == [] then Keys([], []) else Called(After(times[..|times| - 1]), times[|times| - 1])
  }

  predicate NonDecreasing(times: seq<int>) {
    forall i, j :: 0 <= i < j < |times| ==> times[i] <= times[j]
  }

  /** Serials count up, and the weeks of the keys never overlap. */
  predicate WeeksApart(made: seq<Key>) {
    && (forall i :: 0 <= i < |made| ==> made[i].serial == i)
    && forall i, j :: 0 <= i < j < |made| ==> made[i].until + WEEK_SECS <= made[j].until
  }

  predicate InOrder(made: seq<Key>) {
    && (forall i :: 0 <= i < |made| ==> IsRotation(made[i].until))
    && WeeksApart(made)
  }

  /** The last key, and the one before while its week after is not over. */
  function Held(made: seq<Key>, now: int): seq<Key>
    requires made != []
  {
    var n := |made|;
    [made[n - 1]] + if n > 1 && now < made[n - 2].until + WEEK_SECS then [made[n - 2]] else []
  }

  predicate Current(k: Keys, now: int) {
    && k.made != [] && InOrder(k.made)
    && k.made[|k.made| - 1].until == NextMondayIst(now)
    && k.stored == Held(k.made, now)
  }

  lemma KeptWithinWeek(k: Keys, last: int, now: int)
    requires Current(k, last) && last <= now < NextMondayIst(last)
    ensures Current(Called(k, now), now)
  {
    NextMondayIsNext(last);
    RotationWithinWeek(now, NextMondayIst(last));
    assert k.stored[0] == k.made[|k.made| - 1];
    assert Called(k, now) == k;
  }

  lemma RotatedAfterWeek(k: Keys, last: int, now: int)
    requires Current(k, last) && NextMondayIst(last) <= now
    ensures Current(Called(k, now), now)
  {
    var n := |k.made|;
    var key := Key(n, NextMondayIst(now));
    NextMondayIsNext(last);
    NextMondayIsNext(now);
    RotationsAWeekApart(NextMondayIst(last), key.until);
    KeptAtRotation(k, last, now);
    assert Rotated(k.stored, now, n) == [key] + FirstOf(LaterThan(k.stored, now - WEEK_SECS));
    assert Called(k, now).made == k.made + [key];
  }

  lemma KeptAtRotation(k: Keys, last: int, now: int)
    requires Current(k, last) && NextMondayIst(last) <= now
    ensures FirstOf(LaterThan(k.stored, now - WEEK_SECS)) ==
              if now < NextMondayIst(last) + WEEK_SECS then [k.made[|k.made| - 1]] else []
  {
    var n := |k.made|;
    assert k.stored[1..] == if n > 1 && last < k.made[n - 2].until + WEEK_SECS then [k.made[n - 2]] else [];
    if |k.stored| == 2 {
      assert k.stored[1..][1..] == [];
      assert LaterThan(k.stored[1..], now - WEEK_SECS) == [];
    }
  }

  lemma {:induction false} CallsKeepCurrent(times: seq<int>)
    requires times != [] && NonDecreasing(times)
    ensures Current(After(times), times[|times| - 1])
  {
    var n := |times| - 1;
    var now := times[n];
    if n == 0 {
      assert After(times[..0]) == Keys([], []);
      NextMondayIsNext(now);
      assert FirstOf(LaterThan([], now - WEEK_SECS)) == [];
    } else {
      CallsKeepCurrent(times[..n]);
      if now < NextMondayIst(times[n - 1]) {
        KeptWithinWeek(After(times[..n]), times[n - 1], now);
      } else {
        RotatedAfterWeek(After(times[..n]), times[n - 1], now);
      }
    }
  }

  /** So exactly the keys whose week after is not over are held. */
  lemma HeldExactly(made: seq<Key>, now: int)
    requires made != [] && WeeksApart(made) && now < made[|made| - 1].until <= now + WEEK_SECS
    ensures forall key <- made :: key in Held(made, now) <==> now < key.until + WEEK_SECS
  {
    var n := |made|;
    forall i | 0 <= i < n ensures made[i] in Held(made, now) <==> now < made[i].until + WEEK_SECS {
      if i < n - 2 {
        assert made[i].until + WEEK_SECS <= made[n - 2].until && made[n - 2].until + WEEK_SECS <= made[n - 1].until;
      }
    }
  }

  /** After every run of calls: one or two keys, the first current until the next Monday, all
    * made until distinct Mondays, and a key ever made is held exactly until a week after its
    * own. */
  lemma KeysOverAnyRun(times: seq<int>)
    requires times != [] && NonDecreasing(times)
    ensures var k, now := After(times), times[|times| - 1];
            && 1 <= |k.stored| <= 2
            && now < k.stored[0].until <= now + WEEK_SECS
            && (forall i :: 0 <= i < |k.made| ==> IsRotation(k.made[i].until))
            && (forall i, j :: 0 <= i < j < |k.made| ==> k.made[i].until < k.made[j].until)
            && forall key <- k.made :: key in k.stored <==> now < key.until + WEEK_SECS
  {
    var k, now := After(times), times[|times| - 1];
    CallsKeepCurrent(times);
    NextMondayIsNext(now);
    HeldExactly(k.made, now);
  }

  class UdpKeys {
    var stored: seq<Key>
    ghost var made: seq<Key>

    constructor ()
      ensures stored == [] && made == []
    {
      stored, made := [], [];
    }

    /** Stores and gives what a call at `now` finds or makes. */
    method CurrentKeys(now: int, serial: nat) returns (keys: seq<Key>)
      requires serial == |made|
      modifies this
      ensures Keys(stored, made) == Called(Keys(old(stored), old(made)), now)
      ensures keys == stored
    {
      keys := Rotated(stored, now, serial);
      if keys != stored {
        stored := keys;
        made := made + [keys[0]];
      }
    }
  }
}
