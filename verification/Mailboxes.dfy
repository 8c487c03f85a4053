/** A forwarding address: its members, the box sealed for each, and the alarm
  * that clears boxes nobody can collect any more. */
module Mailboxes {
  import opened Lists
  import MailWaiters
  import opened Numbers
  import opened Options

  const SEALED_TTL_SECS := 300
  const MAX_MEMBERS := 5
  const MEMBER_STALE_SECS := 60 * 24 * 3600
  const SEEN_EVERY_SECS := 3600

  datatype Member = Member(
    deviceId: string, secretHash: string, publicKey: string, title: Option<string>,
    sealed: Option<string>, sealedAt: Option<int>, addedAt: int, seenAt: int)
  {
    function Recency(): (at: int)
      ensures seenAt <= at && addedAt <= at && (at == seenAt || at == addedAt)
    {
      if seenAt < addedAt then addedAt else seenAt
    }

    /** The box, for as long as its install may fetch it. */
    function FreshSealed(now: int): Option<string> {
      if sealed.None? || sealedAt.None? then None
      else if (if now < sealedAt.value then 0 else now - sealedAt.value) <= SEALED_TTL_SECS then sealed else None
    }

    /** A new key, which cannot open the box there is. */
    function WithPublicKey(key: string): (keyed: Member)
      ensures keyed.publicKey == key && (keyed.sealed.Some? ==> key == publicKey && keyed.sealed == sealed)
      ensures key == publicKey ==> keyed == this
      ensures keyed.deviceId == deviceId && keyed.secretHash == secretHash && keyed.title == title
    {
      (if key != publicKey then this.(sealed := None, sealedAt := None) else this).(publicKey := key)
    }

    /** Without the box, once its time is over. */
    function Cleared(now: int): (cleared: Member)
      ensures cleared == this.(sealed := cleared.sealed, sealedAt := cleared.sealedAt)
      ensures WellBoxed() ==> cleared.sealed == FreshSealed(now) && cleared.FreshSealed(now) == FreshSealed(now)
    {
      if sealed.Some? && FreshSealed(now).None? then this.(sealed := None, sealedAt := None) else this
    }

    /** A box and its time come and go together. */
    predicate WellBoxed() {
      sealed.Some? <==> sealedAt.Some?
    }
  }

  datatype Doc = Doc(id: string, ownerHash: Option<string>, members: seq<Member>, createdAt: int, updatedAt: int)

  datatype Box = Box(deviceId: string, sealed: string)

  function MapMembers(members: seq<Member>, f: Member -> Member): (mapped: seq<Member>)
    ensures |mapped| == |members| && forall i :: 0 <= i < |members| ==> mapped[i] == f(members[i])
  {
    seq(|members|, i requires 0 <= i < |members| => f(members[i]))
  }

  function ClearedMembers(members: seq<Member>, now: int): seq<Member> {
    MapMembers(members, (m: Member) => m.Cleared(now))
  }

  /** The first second at which no box is worth keeping. */
  function NextExpiry(members: seq<Member>): Option<int> {
    if members == [] then None
    else
      match (members[0].sealedAt, NextExpiry(members[1..]))
      case (None, rest) => rest
      case (Some(at), None) => Some(at + SEALED_TTL_SECS + 1)
      case (Some(at), Some(rest)) => Some(if at + SEALED_TTL_SECS + 1 < rest then rest else at + SEALED_TTL_SECS + 1)
  }

  lemma {:induction false} NextExpiryIsLast(members: seq<Member>)
    ensures NextExpiry(members).None? <==> forall m <- members :: m.sealedAt.None?
    ensures NextExpiry(members).Some? ==>
              && (forall m <- members :: m.sealedAt.Some? ==>
                    m.sealedAt.value + SEALED_TTL_SECS < NextExpiry(members).value)
              && exists m <- members :: m.sealedAt == Some(NextExpiry(members).value - SEALED_TTL_SECS - 1)
  {
    if members != [] {
      NextExpiryIsLast(members[1..]);
      assert members[0] in members && forall m <- members[1..] :: m in members;
      assert forall m <- members :: m == members[0] || m in members[1..];
    }
  }

  /** Where the first member of an install stands, or the list's end. */
  function FirstOn(members: seq<Member>, deviceId: string): (at: nat)
    ensures at <= |members| && (at < |members| ==> members[at].deviceId == deviceId)
    ensures forall i :: 0 <= i < at ==> members[i].deviceId != deviceId
  {
    if members == [] || members[0].deviceId == deviceId then 0 else 1 + FirstOn(members[1..], deviceId)
  }

  /** One box put with the first member of its install. */
  function WithBox(members: seq<Member>, box: Box, now: int): (after: seq<Member>)
    ensures |after| == |members|
    ensures forall i :: 0 <= i < |members| ==>
              after[i] == if i == FirstOn(members, box.deviceId)
                          then members[i].(sealed := Some(box.sealed), sealedAt := Some(now)) else members[i]
  {
    var at := FirstOn(members, box.deviceId);
    if at < |members| then members[at := members[at].(sealed := Some(box.sealed), sealedAt := Some(now))] else members
  }

  function WithBoxes(members: seq<Member>, boxes: seq<Box>, now: int): (after: seq<Member>)
    ensures |after| == |members|
  {
    if boxes == [] then members
    else WithBox(WithBoxes(members, boxes[..|boxes| - 1], now), boxes[|boxes| - 1], now)
  }

  /** The last of the boxes for an install. */
  function LastFor(boxes: seq<Box>, deviceId: string): Option<string> {
    if boxes == [] then None
    else if boxes[|boxes| - 1].deviceId == deviceId then Some(boxes[|boxes| - 1].sealed)
    else LastFor(boxes[..|boxes| - 1], deviceId)
  }

  /** The member an install's boxes go to. */
  predicate IsFirstOn(members: seq<Member>, i: nat) {
    i < |members| && forall j :: 0 <= j < i ==> members[j].deviceId != members[i].deviceId
  }

  /** The first member of each install gets the last box for it, collectable for five minutes
    * and then no longer; every other member, and everything else of that one, is as it was. */
  lemma {:induction false} BoxesReachInstalls(members: seq<Member>, boxes: seq<Box>, now: int, i: nat, later: int)
    requires i < |members| && now <= later
    ensures var was, after := members[i], WithBoxes(members, boxes, now)[i];
            var box := LastFor(boxes, was.deviceId);
            if IsFirstOn(members, i) && box.Some?
            then after == was.(sealed := box, sealedAt := Some(now))
                 && after.FreshSealed(later) == if later <= now + 300 then box else None
            else after == was
  {
    if boxes != [] {
      var n := |boxes| - 1;
      var before := WithBoxes(members, boxes[..n], now);
      forall j | 0 <= j < |members| ensures before[j].deviceId == members[j].deviceId {
        BoxesReachInstalls(members, boxes[..n], now, j, later);
      }
      BoxesReachInstalls(members, boxes[..n], now, i, later);
      assert FirstOn(before, boxes[n].deviceId) == i <==>
               members[i].deviceId == boxes[n].deviceId && IsFirstOn(members, i);
    }
  }

  // ---- the object over time ----

  datatype State = State(doc: Option<Doc>, alarm: Option<int>)

  datatype Step =
    | Save(doc: Doc, now: int)
    | Deliver(boxes: seq<Box>, now: int)
    | AwaitAlarm(now: int)
    | Remove
    | Alarm(now: int)

  /** The alarm after a save: at the last expiry, at least a second ahead; kept when no box is
    * pending. */
  function AlarmFor(alarm: Option<int>, members: seq<Member>, now: int): Option<int> {
    match NextExpiry(members)
    case None => alarm
    case Some(at) => Some(now + Max(1, at - now))
  }

  predicate WellBoxedAll(members: seq<Member>) {
    forall i :: 0 <= i < |members| ==> members[i].WellBoxed()
  }

  predicate Enabled(s: State, step: Step) {
    match step
    case Save(doc, _) => WellBoxedAll(doc.members)
    case Deliver(_, _) => true
    case AwaitAlarm(_) => s.doc.Some?
    case Remove => true
    case Alarm(now) => s.alarm.Some? && s.alarm.value <= now
  }

  /** `Save` takes any document: a route saves the copy it loaded earlier, however stale. */
  function Next(s: State, step: Step): State
    requires Enabled(s, step)
  {
    match step
    case Save(doc, now) => State(Some(doc), AlarmFor(s.alarm, doc.members, now))
    case Deliver(boxes, now) =>
      if s.doc.None? then s
      else
        var members := WithBoxes(s.doc.value.members, boxes, now);
        State(Some(s.doc.value.(members := members, updatedAt := now)), AlarmFor(s.alarm, members, now))
    case AwaitAlarm(now) => if s.alarm.None? then s.(alarm := Some(now + MailWaiters.WAITER_TTL_SECS + 1)) else s
    case Remove => s.(doc := None)
    case Alarm(now) =>
      var doc := if s.doc.Some? then Some(s.doc.value.(members := ClearedMembers(s.doc.value.members, now))) else None;
      State(doc, None)
  }

  ghost predicate IsRun(states: seq<State>, steps: seq<Step>) {
    && |states| == |steps| + 1 && states[0] == State(None, None)
    && forall i :: 0 <= i < |steps| ==> Enabled(states[i], steps[i]) && states[i + 1] == Next(states[i], steps[i])
  }

  /** Every stored box has an alarm pending at or after its expiry. */
  predicate Guarded(s: State) {
    s.doc.Some? ==>
      forall i :: 0 <= i < |s.doc.value.members| ==>
        var m := s.doc.value.members[i];
        m.WellBoxed() && (m.sealed.Some? ==> s.alarm.Some? && m.sealedAt.value + SEALED_TTL_SECS < s.alarm.value)
  }

  lemma SavedIsGuarded(doc: Doc, alarm: Option<int>, now: int)
    requires WellBoxedAll(doc.members)
    ensures Guarded(State(Some(doc), AlarmFor(alarm, doc.members, now)))
  {
    NextExpiryIsLast(doc.members);
    assert forall i :: 0 <= i < |doc.members| ==> doc.members[i] in doc.members;
  }

  lemma {:induction false} BoxesKeepWellBoxed(members: seq<Member>, boxes: seq<Box>, now: int)
    requires WellBoxedAll(members)
    ensures WellBoxedAll(WithBoxes(members, boxes, now))
  {
    if boxes != [] {
      BoxesKeepWellBoxed(members, boxes[..|boxes| - 1], now);
    }
  }

  lemma StepKeepsGuarded(s: State, step: Step)
    requires Guarded(s) && Enabled(s, step)
    ensures Guarded(Next(s, step))
  {
    match step
    case Save(doc, now) => SavedIsGuarded(doc, s.alarm, now);
    case Deliver(boxes, now) =>
      if s.doc.Some? {
        BoxesKeepWellBoxed(s.doc.value.members, boxes, now);
        SavedIsGuarded(Next(s, step).doc.value, s.alarm, now);
      }
    case _ =>
  }

  /** Over every run of saves, deliveries and alarms, stored boxes have a later alarm pending. */
  lemma {:induction false} BoxesAreGuarded(states: seq<State>, steps: seq<Step>, i: nat)
    requires IsRun(states, steps) && i < |states|
    ensures Guarded(states[i])
  {
    if i > 0 {
      BoxesAreGuarded(states, steps, i - 1);
      StepKeepsGuarded(states[i - 1], steps[i - 1]);
    }
  }

  /** One alarm clears every box, and none of them could still be collected. */
  lemma AlarmClearsEveryBox(states: seq<State>, steps: seq<Step>, i: nat)
    requires IsRun(states, steps) && i < |steps| && steps[i].Alarm? && states[i].doc.Some?
    ensures states[i + 1].doc.Some?
    ensures forall m <- states[i + 1].doc.value.members :: m.sealed.None? && m.sealedAt.None?
    ensures forall m <- states[i].doc.value.members :: m.FreshSealed(steps[i].now).None?
  {
    BoxesAreGuarded(states, steps, i);
  }

  // ---- members ----

  function MemberRecency(member: Member): int {
    member.Recency()
  }

  function Fresh(members: seq<Member>, deviceId: string, now: int): (kept: seq<Member>)
    ensures forall m <- kept :: m in members && m.deviceId != deviceId && now - m.Recency() < MEMBER_STALE_SECS
    ensures forall m <- members :: m.deviceId == deviceId || now - m.Recency() >= MEMBER_STALE_SECS || m in kept
    ensures InOrder(kept, members)
    ensures (forall m <- members :: m.deviceId != deviceId && now - m.Recency() < MEMBER_STALE_SECS) ==> kept == members
  {
    if members == [] then []
    else
      var rest := Fresh(members[1..], deviceId, now);
      if members[0].deviceId != deviceId && now - members[0].Recency() < MEMBER_STALE_SECS then [members[0]] + rest
      else rest
  }

  /** The first of the members seen longest ago. */
  function LeastRecent(members: seq<Member>): (at: nat)
    requires members != []
    ensures IsFirstLeast(members, MemberRecency, at)
  {
    if |members| == 1 then 0
    else
      var last := |members| - 1;
      var at := LeastRecent(members[..last]);
      if members[last].Recency() < members[at].Recency() then last else at
  }

  /** The members with room made for one more. */
  function Trimmed(members: seq<Member>): (left: seq<Member>)
    ensures |left| == Min(|members|, MAX_MEMBERS - 1) && (|members| < MAX_MEMBERS ==> left == members)
    ensures InOrder(left, members) && forall m <- left :: m in members
    ensures forall gone <- members, kept <- left :: gone in left || gone.Recency() <= kept.Recency()
    decreases |members|
  {
    if |members| < MAX_MEMBERS then
      AllInOrder(members);
      members
    else
      var at := LeastRecent(members);
      RemovedItems(members, at);
      var left := Trimmed(Removed(members, at));
      InOrderWithOneMore(left, members, at);
      left
  }

  /** `addMember`: the new member stays, quiet installs go, then those seen longest ago. */
  function Added(members: seq<Member>, member: Member, now: int): (after: seq<Member>)
    ensures after != [] && after[|after| - 1] == member && |after| <= MAX_MEMBERS
    ensures forall m <- after[..|after| - 1] ::
              m in members && m.deviceId != member.deviceId && now - m.Recency() < MEMBER_STALE_SECS
    ensures |after| < MAX_MEMBERS ==>
              forall m <- members ::
                m.deviceId == member.deviceId || now - m.Recency() >= MEMBER_STALE_SECS || m in after
    ensures |members| < MAX_MEMBERS
            && (forall m <- members :: m.deviceId != member.deviceId && now - m.Recency() < MEMBER_STALE_SECS)
            ==> after == members + [member]
  {
    Trimmed(Fresh(members, member.deviceId, now)) + [member]
  }

  // ---- the object ----

  class MailboxObject {
    var doc: Option<Doc>
    var alarm: Option<int>

    constructor ()
      ensures Now() == State(None, None)
    {
      doc, alarm := None, None;
    }

    function Now(): State
      reads this
    {
      State(doc, alarm)
    }

    method SaveDoc(saved: Doc, now: int)
      requires WellBoxedAll(saved.members)
      modifies this
      ensures Now() == Next(old(Now()), Save(saved, now))
      ensures doc == Some(saved)
      // At the end of the last box's lifetime, or the next second if that is past.
      ensures if forall m <- saved.members :: m.sealedAt.None? then alarm == old(alarm)
              else
                && alarm.Some? && now < alarm.value
                && (forall m <- saved.members :: m.sealedAt.Some? ==> m.sealedAt.value + 300 < alarm.value)
                && (alarm.value == now + 1
                    || exists m <- saved.members :: m.sealedAt.Some? && m.sealedAt.value + 301 == alarm.value)
    {
      NextExpiryIsLast(saved.members);
      doc := Some(saved);
      var at := NextExpiry(saved.members);
      if at.Some? {
        alarm := Some(now + Max(1, at.value - now));
      }
    }

    /** Stores a new address, and refuses one already taken. */
    method Create(saved: Doc, now: int) returns (created: bool)
      requires WellBoxedAll(saved.members)
      modifies this
      ensures created == old(doc).None?
      ensures Now() == if created then Next(old(Now()), Save(saved, now)) else old(Now())
    {
      if doc.Some? {
        return false;
      }
      SaveDoc(saved, now);
      return true;
    }

    /** Stores a box for each install that is a member; tells whether the mailbox exists. */
    method DeliverBoxes(boxes: seq<Box>, now: int) returns (delivered: bool)
      requires Guarded(Now())
      modifies this
      ensures delivered == old(doc).Some?
      ensures Now() == Next(old(Now()), Deliver(boxes, now))
      ensures delivered ==>
                && doc.Some? && doc.value == old(doc).value.(members := doc.value.members, updatedAt := now)
                && |doc.value.members| == |old(doc).value.members|
                && forall i :: 0 <= i < |doc.value.members| ==>
                     var was, after := old(doc).value.members[i], doc.value.members[i];
                     var box := LastFor(boxes, was.deviceId);
                     after == if IsFirstOn(old(doc).value.members, i) && box.Some?
                              then was.(sealed := box, sealedAt := Some(now)) else was
    {
      if doc.None? {
        return false;
      }
      var members := doc.value.members;
      for i := 0 to |boxes|
        invariant members == WithBoxes(doc.value.members, boxes[..i], now)
      {
        assert boxes[..i + 1][..i] == boxes[..i];
        var at := FirstOn(members, boxes[i].deviceId);
        if at < |members| {
          members := members[at := members[at].(sealed := Some(boxes[i].sealed), sealedAt := Some(now))];
        }
      }
      assert boxes[..|boxes|] == boxes;
      BoxesKeepWellBoxed(doc.value.members, boxes, now);
      forall i | 0 <= i < |members| {
        BoxesReachInstalls(doc.value.members, boxes, now, i, now);
      }
      SaveDoc(doc.value.(members := members, updatedAt := now), now);
      return true;
    }

    /** Clears the boxes whose time is over. */
    method OnAlarm(now: int)
      requires Enabled(Now(), Alarm(now))
      modifies this
      ensures Now() == Next(old(Now()), Alarm(now))
    {
      alarm := None;
      if doc.None? {
        return;
      }
      var members, changed := doc.value.members, false;
      ghost var before := members;
      for i := 0 to |members|
        invariant |members| == |before|
        invariant forall j :: 0 <= j < |members| ==> members[j] == if j < i then before[j].Cleared(now) else before[j]
        invariant !changed ==> members == before
      {
        if members[i].sealed.Some? && members[i].FreshSealed(now).None? {
          members := members[i := members[i].(sealed := None, sealedAt := None)];
          changed := true;
        }
      }
      assert members == ClearedMembers(before, now);
      if changed {
        doc := Some(doc.value.(members := members));
      }
    }
  }
}
