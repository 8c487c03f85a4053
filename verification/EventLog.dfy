/** An install's event log, and an app that reads it page by page or over a socket. */
module EventLog {
  import opened Numbers
  import opened Options

  const EVENT_TTL_SECS := 24 * 60 * 60
  const EVENT_TTL_MS := EVENT_TTL_SECS * 1000
  /** How many events a page holds. */
  const PAGE := 100

  datatype Event = Event(number: nat, at: int, body: string)

  /** `alarm` and `clock` are in milliseconds, an event's `at` in seconds; `all` is every event
    * ever logged. */
  datatype Log = Log(number: nat, rows: map<nat, Event>, alarm: Option<int>, clock: int, all: seq<Event>)

  function Seconds(ms: int): int {
    ms / 1000
  }

  function Appended(log: Log, body: string, ms: int): Log {
    var event := Event(log.number + 1, Seconds(ms), body);
    Log(event.number, log.rows[event.number := event], if log.alarm.None? then Some(ms + EVENT_TTL_MS) else log.alarm,
        ms, log.all + [event])
  }

  function Oldest(ms: int): int {
    if Seconds(ms) < EVENT_TTL_SECS then 0 else Seconds(ms) - EVENT_TTL_SECS
  }

  function Fresh(rows: map<nat, Event>, ms: int): map<nat, Event> {
    map n | n in rows && Oldest(ms) <= rows[n].at :: rows[n]
  }

  /** An alarm drops what is older than a day, and comes again while anything is left. */
  function Alarmed(log: Log, ms: int): Log {
    var rows := Fresh(log.rows, ms);
    log.(rows := rows, alarm := if rows == map[] then None else Some(ms + EVENT_TTL_MS), clock := ms)
  }

  /** The rows numbered after `after`, up to `last`, in order. */
  function RowsAfter(rows: map<nat, Event>, after: nat, last: nat): seq<Event>
    decreases last
  {
    if last <= after then []
    else RowsAfter(rows, after, last - 1) + (if last in rows then [rows[last]] else [])
  }

  function Waiting(log: Log, after: nat): seq<Event> {
    RowsAfter(log.rows, after, log.number)
  }

  function EventsAfter(log: Log, after: nat): seq<Event> {
    var waiting := Waiting(log, after);
    if |waiting| <= PAGE then waiting else waiting[..PAGE]
  }

  predicate Ascending(events: seq<Event>) {
    forall i, j :: 0 <= i < j < |events| ==> events[i].number < events[j].number
  }

  predicate WellNumbered(rows: map<nat, Event>) {
    forall n <- rows :: rows[n].number == n
  }

  lemma {:induction false} RowsAfterAreInOrder(rows: map<nat, Event>, after: nat, last: nat)
    requires WellNumbered(rows)
    ensures Ascending(RowsAfter(rows, after, last))
    ensures forall e <- RowsAfter(rows, after, last) ::
              after < e.number <= last && e.number in rows && rows[e.number] == e
    ensures forall n <- rows :: after < n <= last ==> rows[n] in RowsAfter(rows, after, last)
    decreases last
  {
    if after < last {
      RowsAfterAreInOrder(rows, after, last - 1);
      var before := RowsAfter(rows, after, last - 1);
      forall n | n in rows && after < n <= last ensures rows[n] in RowsAfter(rows, after, last) {
        assert n < last ==> rows[n] in before;
      }
    }
  }

  lemma {:induction false} RowsAfterSplit(rows: map<nat, Event>, after: nat, mid: nat, last: nat)
    requires after <= mid <= last
    ensures RowsAfter(rows, after, last) == RowsAfter(rows, after, mid) + RowsAfter(rows, mid, last)
    decreases last
  {
    if mid < last {
      RowsAfterSplit(rows, after, mid, last - 1);
    }
  }

  /** Asking again from an event leaves exactly what came behind it. */
  lemma AskingFromEvent(rows: map<nat, Event>, after: nat, last: nat, k: nat)
    requires WellNumbered(rows) && 0 < k <= |RowsAfter(rows, after, last)|
    ensures RowsAfter(rows, RowsAfter(rows, after, last)[k - 1].number, last) == RowsAfter(rows, after, last)[k..]
  {
    var whole := RowsAfter(rows, after, last);
    var mid := whole[k - 1].number;
    RowsAfterAreInOrder(rows, after, last);
    assert whole[k - 1] in whole;
    var head, tail := RowsAfter(rows, after, mid), RowsAfter(rows, mid, last);
    RowsAfterSplit(rows, after, mid, last);
    RowsAfterAreInOrder(rows, after, mid);
    RowsAfterAreInOrder(rows, mid, last);
    forall i | 0 <= i < |whole| ensures whole[i].number <= mid <==> i < |head| {
      assert if i < |head| then whole[i] in head else whole[i] in tail;
    }
    assert whole[k - 1].number <= mid && (k < |whole| ==> mid < whole[k].number);
  }

  /** What a page promises: from the cursor on, in order, nothing in between left out, and cut
    * short only by the page's length. */
  predicate IsPage(rows: map<nat, Event>, after: nat, page: seq<Event>) {
    && Ascending(page) && |page| <= PAGE
    && (forall e <- page :: after < e.number && e.number in rows && rows[e.number] == e)
    && forall n <- rows :: after < n && rows[n] !in page ==> |page| == PAGE && page[PAGE - 1].number < n
  }

  lemma PagesPromise(log: Log, after: nat)
    requires WellNumbered(log.rows) && forall n <- log.rows :: n <= log.number
    ensures IsPage(log.rows, after, EventsAfter(log, after))
  {
    var waiting, page := Waiting(log, after), EventsAfter(log, after);
    RowsAfterAreInOrder(log.rows, after, log.number);
    assert forall i :: 0 <= i < |page| ==> page[i] == waiting[i];
    assert forall e <- page :: e in waiting;
    forall n | n in log.rows && after < n
      ensures log.rows[n] in page || (|page| == PAGE && page[PAGE - 1].number < n)
    {
      var i :| 0 <= i < |waiting| && waiting[i] == log.rows[n];
      if i < |page| {
        assert page[i] == log.rows[n];
      }
    }
  }

  // ---- the log and one reader ----

  /** The app: the last number it read, what it got, and whether a socket is open to it. */
  datatype Reader = Reader(cursor: nat, received: seq<Event>, streaming: bool)

  datatype State = State(log: Log, reader: Reader)

  /** `Read`: a catch-up, or a socket's first page, of which `got` events arrive. */
  datatype Step =
    | Append(body: string, ms: int)
    | Alarm(ms: int)
    | Read(got: nat, streaming: bool)
    | Drop

  function Initial(): State {
    State(Log(0, map[], None, 0, []), Reader(0, [], false))
  }

  predicate Enabled(s: State, step: Step) {
    match step
    case Append(_, ms) => s.log.clock <= ms
    case Alarm(ms) => s.log.alarm.Some? && s.log.alarm.value <= ms && s.log.clock <= ms
    case Read(got, streaming) =>
      got <= |EventsAfter(s.log, s.reader.cursor)| && (streaming ==> got == |EventsAfter(s.log, s.reader.cursor)|)
    case Drop => true
  }

  function GotEvents(reader: Reader, events: seq<Event>): Reader {
    if events == [] then reader
    else reader.(cursor := events[|events| - 1].number, received := reader.received + events)
  }

  function Next(s: State, step: Step): State
    requires Enabled(s, step)
  {
    match step
    case Append(body, ms) =>
      var log := Appended(s.log, body, ms);
      State(log, if s.reader.streaming then GotEvents(s.reader, [log.rows[log.number]]) else s.reader)
    case Alarm(ms) => s.(log := Alarmed(s.log, ms))
    case Read(got, streaming) =>
      s.(reader := GotEvents(s.reader, EventsAfter(s.log, s.reader.cursor)[..got]).(streaming := streaming))
    case Drop => s.(reader := s.reader.(streaming := false))
  }

  predicate StepAt(states: seq<State>, steps: seq<Step>, i: nat) {
    && i < |steps| && i + 1 < |states|
    && Enabled(states[i], steps[i]) && states[i + 1] == Next(states[i], steps[i])
  }

  ghost predicate IsRun(states: seq<State>, steps: seq<Step>) {
    && |states| == |steps| + 1 && states[0] == Initial()
    && forall i: nat :: i < |steps| ==> StepAt(states, steps, i)
  }

  /** The n-th event ever logged has number n, and stored rows are logged events. */
  predicate Numbered(log: Log) {
    && |log.all| == log.number
    && (forall i :: 0 <= i < |log.all| ==> log.all[i].number == i + 1 && 0 <= log.all[i].at <= Seconds(log.clock))
    && forall n <- log.rows :: 0 < n <= log.number && log.rows[n] == log.all[n - 1]
  }

  /** A day's events are stored, and an alarm is pending that drops each within two. */
  predicate Retained(log: Log)
    requires Numbered(log)
  {
    && 0 <= log.clock && (log.alarm.Some? ==> log.alarm.value <= log.clock + EVENT_TTL_MS)
    && (forall i :: 0 <= i < |log.all| && Seconds(log.clock) <= log.all[i].at + EVENT_TTL_SECS ==> i + 1 in log.rows)
    && forall n <- log.rows :: log.alarm.Some? && log.alarm.value <= log.rows[n].at * 1000 + 999 + 2 * EVENT_TTL_MS
  }

  predicate ReadInOrder(s: State) {
    && s.reader.cursor <= s.log.number && Ascending(s.reader.received)
    && forall e <- s.reader.received :: 0 < e.number <= s.reader.cursor && e in s.log.all
  }

  predicate Invariant(s: State) {
    Numbered(s.log) && Retained(s.log) && ReadInOrder(s)
  }

  lemma AppendKeepsLog(log: Log, body: string, ms: int)
    requires Numbered(log) && Retained(log) && log.clock <= ms
    ensures Numbered(Appended(log, body, ms)) && Retained(Appended(log, body, ms))
  {
    var next := Appended(log, body, ms);
    assert next.all[log.number] == next.rows[next.number];
    assert forall i :: 0 <= i < |log.all| ==> next.all[i] == log.all[i];
  }

  lemma AlarmKeepsLog(log: Log, ms: int)
    requires Numbered(log) && Retained(log) && log.clock <= ms
    ensures Numbered(Alarmed(log, ms)) && Retained(Alarmed(log, ms))
  {
    var next := Alarmed(log, ms);
    forall n | n in next.rows
      ensures next.alarm.Some? && next.alarm.value <= next.rows[n].at * 1000 + 999 + 2 * EVENT_TTL_MS
    {
      assert next.rows != map[];
    }
  }

  lemma GotKeepsOrder(s: State, events: seq<Event>)
    requires Invariant(s) && Ascending(events)
    requires forall e <- events :: s.reader.cursor < e.number <= s.log.number && e in s.log.all
    ensures ReadInOrder(s.(reader := GotEvents(s.reader, events)))
  {
    if events != [] {
      var got := GotEvents(s.reader, events).received;
      forall i, j | 0 <= i < j < |got| ensures got[i].number < got[j].number {
        assert i < |s.reader.received| ==> got[i] in s.reader.received;
        assert |s.reader.received| <= j ==> got[j] in events;
      }
      forall e | e in got ensures 0 < e.number <= events[|events| - 1].number && e in s.log.all {
        assert events[|events| - 1] in events;
        assert e in s.reader.received || e in events;
      }
    }
  }

  lemma PageIsLogged(s: State, got: nat)
    requires Invariant(s) && got <= |EventsAfter(s.log, s.reader.cursor)|
    ensures var page := EventsAfter(s.log, s.reader.cursor)[..got];
            && Ascending(page)
            && forall e <- page :: s.reader.cursor < e.number <= s.log.number && e in s.log.all
  {
    PagesPromise(s.log, s.reader.cursor);
    var page := EventsAfter(s.log, s.reader.cursor);
    assert forall e <- page[..got] :: e in page;
    assert forall e <- page :: e == s.log.all[e.number - 1];
  }

  lemma StepKeepsInvariant(s: State, step: Step)
    requires Invariant(s) && Enabled(s, step)
    ensures Invariant(Next(s, step))
  {
    match step
    case Append(body, ms) =>
      AppendKeepsLog(s.log, body, ms);
      var log := Appended(s.log, body, ms);
      assert forall e <- s.log.all :: e in log.all;
      if s.reader.streaming {
        GotKeepsOrder(State(log, s.reader), [log.rows[log.number]]);
      }
    case Alarm(ms) => AlarmKeepsLog(s.log, ms);
    case Read(got, _) =>
      PageIsLogged(s, got);
      GotKeepsOrder(s, EventsAfter(s.log, s.reader.cursor)[..got]);
    case Drop =>
  }

  lemma {:induction false} RunKeepsInvariant(states: seq<State>, steps: seq<Step>, i: nat)
    requires IsRun(states, steps) && i < |states|
    ensures Invariant(states[i])
  {
    if i > 0 {
      RunKeepsInvariant(states, steps, i - 1);
      assert StepAt(states, steps, i - 1);
      StepKeepsInvariant(states[i - 1], steps[i - 1]);
    }
  }

  // ---- main results ----

  /** The events a run's own steps log: numbered as they come, with their second and their text. */
  function EventsLogged(steps: seq<Step>, i: nat): seq<Event>
    requires i <= |steps|
  {
    if i == 0 then []
    else
      var before := EventsLogged(steps, i - 1);
      match steps[i - 1]
      case Append(body, ms) => before + [Event(|before| + 1, Seconds(ms), body)]
      case _ => before
  }

  lemma {:induction false} LogIsOfSteps(states: seq<State>, steps: seq<Step>, i: nat)
    requires IsRun(states, steps) && i < |states|
    ensures states[i].log.all == EventsLogged(steps, i)
  {
    if i > 0 {
      LogIsOfSteps(states, steps, i - 1);
      RunKeepsInvariant(states, steps, i - 1);
      assert StepAt(states, steps, i - 1);
    }
  }

  /** Over every run: the n-th event logged has number n, so none is used twice; what arrives is
    * logged events in strictly increasing order, so each at most once; and an event a day old or
    * younger is still stored. */
  lemma LogOverAnyRun(states: seq<State>, steps: seq<Step>, i: nat)
    requires IsRun(states, steps) && i < |states|
    ensures states[i].log.all == EventsLogged(steps, i)
    ensures forall k :: 0 <= k < |states[i].log.all| ==> states[i].log.all[k].number == k + 1
    ensures Ascending(states[i].reader.received) && forall e <- states[i].reader.received :: e in states[i].log.all
    ensures forall e <- states[i].log.all :: Seconds(states[i].log.clock) - e.at <= EVENT_TTL_SECS ==>
                                               e.number in states[i].log.rows && states[i].log.rows[e.number] == e
  {
    LogIsOfSteps(states, steps, i);
    RunKeepsInvariant(states, steps, i);
  }

  /** Where no step comes more than `late` milliseconds after a pending alarm, nothing is stored
    * longer than two days and that. */
  lemma NothingStaysTwoDays(states: seq<State>, steps: seq<Step>, i: nat, n: nat, late: nat)
    requires IsRun(states, steps) && i < |states| && n in states[i].log.rows
    requires states[i].log.alarm.Some? ==> states[i].log.clock <= states[i].log.alarm.value + late
    ensures states[i].log.clock < (states[i].log.rows[n].at + 1) * 1000 + 2 * EVENT_TTL_MS + late
  {
    RunKeepsInvariant(states, steps, i);
  }

  /** Every stored event the reader has gone past has reached it. */
  predicate Complete(s: State) {
    forall n <- s.log.rows :: n <= s.reader.cursor ==> s.log.rows[n] in s.reader.received
  }

  /** A socket's first page did not hold everything. */
  predicate StreamsBehind(s: State) {
    s.reader.streaming && Waiting(s.log, s.reader.cursor) != []
  }

  lemma ReadStaysComplete(s: State, got: nat)
    requires Invariant(s) && Complete(s) && got <= |EventsAfter(s.log, s.reader.cursor)|
    ensures Complete(s.(reader := GotEvents(s.reader, EventsAfter(s.log, s.reader.cursor)[..got])))
  {
    var cursor, page := s.reader.cursor, EventsAfter(s.log, s.reader.cursor);
    PagesPromise(s.log, cursor);
    if got > 0 {
      forall n | n in s.log.rows && cursor < n <= page[got - 1].number ensures s.log.rows[n] in page[..got] {
        assert s.log.rows[n] in page;
        var i :| 0 <= i < |page| && page[i] == s.log.rows[n];
        assert i < got;
      }
    }
  }

  lemma BehindAppendSkips(s: State, body: string, ms: int)
    requires Invariant(s) && s.log.clock <= ms && StreamsBehind(s)
    ensures !Complete(Next(s, Append(body, ms)))
  {
    var t := Next(s, Append(body, ms));
    var e := Waiting(s.log, s.reader.cursor)[0];
    RowsAfterAreInOrder(s.log.rows, s.reader.cursor, s.log.number);
    assert e in Waiting(s.log, s.reader.cursor);
    assert e.number in t.log.rows && t.log.rows[e.number] == e;
    assert e !in s.reader.received;
  }

  lemma AppendStaysComplete(s: State, body: string, ms: int)
    requires Invariant(s) && Complete(s) && s.log.clock <= ms && !StreamsBehind(s)
    ensures Complete(Next(s, Append(body, ms)))
  {
    var t := Next(s, Append(body, ms));
    RowsAfterAreInOrder(s.log.rows, s.reader.cursor, s.log.number);
    assert forall n <- s.log.rows :: s.reader.cursor < n ==> s.log.rows[n] in Waiting(s.log, s.reader.cursor);
    forall n | n in t.log.rows && n <= t.reader.cursor ensures t.log.rows[n] in t.reader.received {
      if n == t.log.number {
        assert t.log.rows[n] == t.reader.received[|s.reader.received|];
      }
    }
  }

  /** The one way an event is skipped: one more is logged while a socket is open whose first
    * page left events behind. */
  lemma SkippedOnlyBehindStream(s: State, step: Step)
    requires Invariant(s) && Complete(s) && Enabled(s, step)
    ensures Complete(Next(s, step)) <==> !(step.Append? && StreamsBehind(s))
  {
    match step
    case Append(body, ms) =>
      if StreamsBehind(s) {
        BehindAppendSkips(s, body, ms);
      } else {
        AppendStaysComplete(s, body, ms);
      }
    case Alarm(_) =>
    case Read(got, _) => ReadStaysComplete(s, got);
    case Drop =>
  }

  /** A whole page leaves something behind exactly when more than a page was waiting. */
  lemma ReadLeaves(s: State, got: nat, streaming: bool)
    requires Invariant(s) && Enabled(s, Read(got, streaming))
    ensures Waiting(s.log, Next(s, Read(got, streaming)).reader.cursor) == Waiting(s.log, s.reader.cursor)[got..]
    ensures streaming ==> (StreamsBehind(Next(s, Read(got, streaming))) <==> |Waiting(s.log, s.reader.cursor)| > PAGE)
  {
    var waiting, page := Waiting(s.log, s.reader.cursor), EventsAfter(s.log, s.reader.cursor);
    if got > 0 {
      assert page[got - 1] == waiting[got - 1];
      AskingFromEvent(s.log.rows, s.reader.cursor, s.log.number, got);
    }
  }

  function Connect(s: State): Step {
    Read(|EventsAfter(s.log, s.reader.cursor)|, true)
  }

  /** A socket skips an event at the next one logged exactly when more than a page was waiting. */
  lemma ConnectThenAppend(s: State, body: string, ms: int)
    requires Invariant(s) && Complete(s) && s.log.clock <= ms
    ensures Complete(Next(Next(s, Connect(s)), Append(body, ms))) <==> |Waiting(s.log, s.reader.cursor)| <= PAGE
  {
    var t := Next(s, Connect(s));
    StepKeepsInvariant(s, Connect(s));
    SkippedOnlyBehindStream(s, Connect(s));
    ReadLeaves(s, Connect(s).got, true);
    SkippedOnlyBehindStream(t, Append(body, ms));
  }

  /** Everything logged within a second, before the reader first connects. */
  function Logged(n: nat): State {
    if n == 0 then Initial() else State(Appended(Logged(n - 1).log, "", 0), Logged(n - 1).reader)
  }

  lemma {:induction false} AllWaiting(rows: map<nat, Event>, last: nat)
    requires forall n: nat :: 0 < n <= last ==> n in rows
    ensures |RowsAfter(rows, 0, last)| == last
  {
    if last > 0 {
      AllWaiting(rows, last - 1);
    }
  }

  lemma {:induction false} LoggedAre(n: nat)
    ensures Invariant(Logged(n)) && Logged(n).reader == Initial().reader
    ensures Logged(n).log.clock == 0 && Logged(n).log.number == n
    ensures n > 0 ==> Enabled(Logged(n - 1), Append("", 0)) && Logged(n) == Next(Logged(n - 1), Append("", 0))
  {
    if n > 0 {
      LoggedAre(n - 1);
      StepKeepsInvariant(Logged(n - 1), Append("", 0));
    }
  }

  lemma LoggedAllWait(n: nat)
    ensures |Waiting(Logged(n).log, 0)| == n
  {
    LoggedAre(n);
    var log := Logged(n).log;
    forall i: nat | 0 < i <= n ensures i in log.rows {
      assert log.all[i - 1].at <= 0;
    }
    AllWaiting(log.rows, n);
  }

  /** Such a socket exists: the first one onto `n` events skips one exactly when `n` is more
    * than a page. */
  lemma FirstSocketSkips(n: nat)
    ensures var s := Logged(n);
            && s.log.clock <= 0
            && (Complete(Next(Next(s, Connect(s)), Append("", 0))) <==> n <= PAGE)
  {
    LoggedAre(n);
    LoggedAllWait(n);
    ConnectThenAppend(Logged(n), "", 0);
  }

  predicate Skipped(reader: Reader, n: nat) {
    0 < n <= reader.cursor && forall e <- reader.received :: e.number != n
  }

  lemma GotKeepsSkipped(reader: Reader, events: seq<Event>, n: nat)
    requires Skipped(reader, n) && forall e <- events :: reader.cursor < e.number
    ensures Skipped(GotEvents(reader, events), n)
  {
    if events != [] {
      assert events[|events| - 1] in events;
    }
  }

  lemma StepKeepsSkipped(s: State, step: Step, n: nat)
    requires Invariant(s) && Enabled(s, step) && Skipped(s.reader, n)
    ensures Skipped(Next(s, step).reader, n)
  {
    match step
    case Append(body, ms) =>
      var log := Appended(s.log, body, ms);
      GotKeepsSkipped(s.reader, [log.rows[log.number]], n);
    case Alarm(_) =>
    case Read(got, _) =>
      PageIsLogged(s, got);
      GotKeepsSkipped(s.reader, EventsAfter(s.log, s.reader.cursor)[..got], n);
    case Drop =>
  }

  /** A number once gone past without its event stays without it. */
  lemma {:induction false} SkippedForGood(states: seq<State>, steps: seq<Step>, i: nat, j: nat, n: nat)
    requires IsRun(states, steps) && i <= j < |states| && Skipped(states[i].reader, n)
    ensures Skipped(states[j].reader, n)
    decreases j
  {
    if i < j {
      SkippedForGood(states, steps, i, j - 1, n);
      RunKeepsInvariant(states, steps, j - 1);
      assert StepAt(states, steps, j - 1);
      StepKeepsSkipped(states[j - 1], steps[j - 1], n);
    }
  }

  lemma LastDayHasArrived(s: State)
    requires Invariant(s) && Complete(s) && Waiting(s.log, s.reader.cursor) == []
    ensures forall e <- s.log.all :: Seconds(s.log.clock) - e.at <= EVENT_TTL_SECS ==> e in s.reader.received
  {
    RowsAfterAreInOrder(s.log.rows, s.reader.cursor, s.log.number);
  }

  /** With no event logged behind an open socket, what is stored and gone past has arrived;
    * once nothing waits, so has every event of the last day. */
  lemma {:induction false} NothingIsMissed(states: seq<State>, steps: seq<Step>, i: nat)
    requires IsRun(states, steps) && i < |states|
    requires forall k :: 0 <= k < i ==> !(steps[k].Append? && StreamsBehind(states[k]))
    ensures Complete(states[i])
    ensures Waiting(states[i].log, states[i].reader.cursor) == [] ==>
              forall e <- states[i].log.all :: Seconds(states[i].log.clock) - e.at <= EVENT_TTL_SECS ==>
                                                 e in states[i].reader.received
  {
    if i > 0 {
      NothingIsMissed(states, steps, i - 1);
      RunKeepsInvariant(states, steps, i - 1);
      assert StepAt(states, steps, i - 1);
      SkippedOnlyBehindStream(states[i - 1], steps[i - 1]);
    }
    if Waiting(states[i].log, states[i].reader.cursor) == [] {
      RunKeepsInvariant(states, steps, i);
      LastDayHasArrived(states[i]);
    }
  }

  function PageRead(s: State): State {
    Next(s, Read(|EventsAfter(s.log, s.reader.cursor)|, false))
  }

  /** `s` after whole pages are read, `pages` of them. */
  function AfterPages(s: State, pages: nat): State {
    if pages == 0 then s else PageRead(AfterPages(s, pages - 1))
  }

  /** From `s` to `t` nothing was logged, and the first `count` events waiting arrived, or all
    * when there were fewer. */
  predicate Took(s: State, t: State, count: nat) {
    var waiting := Waiting(s.log, s.reader.cursor);
    && t.log == s.log
    && Waiting(t.log, t.reader.cursor) == waiting[Min(count, |waiting|)..]
    && t.reader.received == s.reader.received + waiting[..Min(count, |waiting|)]
  }

  lemma PageReadTakes(s: State)
    requires Invariant(s)
    ensures Invariant(PageRead(s)) && Took(s, PageRead(s), PAGE)
  {
    var page := EventsAfter(s.log, s.reader.cursor);
    ReadLeaves(s, |page|, false);
    StepKeepsInvariant(s, Read(|page|, false));
    assert page[..|page|] == page;
  }

  lemma CutTwice(waiting: seq<Event>, first: nat, second: nat)
    ensures var a := Min(first, |waiting|);
            var b := Min(second, |waiting[a..]|);
            && a + b == Min(first + second, |waiting|)
            && waiting[a..][b..] == waiting[a + b..]
            && waiting[..a] + waiting[a..][..b] == waiting[..a + b]
  {
  }

  lemma TookMore(s: State, t: State, u: State, first: nat, second: nat)
    requires Took(s, t, first) && Took(t, u, second)
    ensures Took(s, u, first + second)
  {
    CutTwice(Waiting(s.log, s.reader.cursor), first, second);
  }

  /** With nothing more logged, reading ends: each page takes a hundred off what waits, and what
    * arrived is all that waited, in order. */
  lemma {:induction false} ReadingEnds(s: State, pages: nat)
    requires Invariant(s)
    ensures Invariant(AfterPages(s, pages)) && Took(s, AfterPages(s, pages), pages * PAGE)
  {
    if pages > 0 {
      ReadingEnds(s, pages - 1);
      PageReadTakes(AfterPages(s, pages - 1));
      TookMore(s, AfterPages(s, pages - 1), AfterPages(s, pages), (pages - 1) * PAGE, PAGE);
    }
  }

  // ---- the object ----

  class Device {
    var registered: bool
    var number: nat
    var rows: map<nat, Event>
    var alarm: Option<int>
    ghost var clock: int
    ghost var all: seq<Event>

    constructor ()
      ensures !registered && Now() == Initial().log
    {
      registered, number, rows, alarm, clock, all := false, 0, map[], None, 0, [];
    }

    ghost function Now(): Log
      reads this
    {
      Log(number, rows, alarm, clock, all)
    }

    /** False when the install exists. */
    method Init() returns (made: bool)
      modifies this`registered
      ensures made == !old(registered) && registered
    {
      made := !registered;
      registered := true;
    }

    /** Logs an event; its number, if the install is registered. */
    method Append(body: string, ms: int) returns (logged: Option<nat>)
      modifies this`number, this`rows, this`alarm, this`clock, this`all
      ensures logged.Some? == registered
      ensures registered ==> logged.value == old(number) + 1 && Now() == Appended(old(Now()), body, ms)
      ensures registered ==>
                && rows == old(rows)[logged.value := Event(logged.value, Seconds(ms), body)]
                && alarm == if old(alarm).Some? then old(alarm) else Some(ms + 24 * 3600 * 1000)
      ensures !registered ==> Now() == old(Now())
    {
      if !registered {
        return None;
      }
      number := number + 1;
      var event := Event(number, Seconds(ms), body);
      rows := rows[number := event];
      if alarm.None? {
        alarm := Some(ms + EVENT_TTL_MS);
      }
      clock, all := ms, all + [event];
      logged := Some(number);
    }

    method Page(after: nat) returns (page: seq<Event>)
      requires Numbered(Now())
      ensures page == EventsAfter(Now(), after) && IsPage(rows, after, page)
    {
      page := RowsAfter(rows, after, number);
      if |page| > PAGE {
        page := page[..PAGE];
      }
      PagesPromise(Now(), after);
    }

    method OnAlarm(ms: int)
      modifies this`rows, this`alarm, this`clock
      ensures Now() == Alarmed(old(Now()), ms)
      ensures forall n <- old(rows) :: 0 <= old(rows)[n].at ==>
                (n in rows <==> Seconds(ms) - old(rows)[n].at <= 24 * 3600)
      ensures forall n <- rows :: n in old(rows) && rows[n] == old(rows)[n]
      ensures alarm == if rows == map[] then None else Some(ms + 24 * 3600 * 1000)
    {
      alarm := None;
      rows := map n | n in rows && Oldest(ms) <= rows[n].at :: rows[n];
      if |rows| > 0 {
        alarm := Some(ms + EVENT_TTL_MS);
      }
      clock := ms;
    }
  }
}
