/** The mail routes over all mailboxes and the owner index, which are separate objects and must
  * agree. Each route is one step. Secrets come as their hashes. */
module MailRoutes {
  import opened Lists
  import opened Options
  import opened Mailboxes

  const ID_LEN := 10
  const ID_ALPHABET := "abcdefghijkmnpqrstuvwxyz23456789"

  predicate IsId(id: string) {
    |id| == ID_LEN && forall c <- id :: c in ID_ALPHABET
  }

  /** `boxes`: the mailboxes by id. `index`: for each owner with an entry, the mailbox it names. */
  datatype World = World(boxes: map<string, Doc>, index: map<string, string>)

  const INITIAL := World(map[], map[])

  /** What a route was called with. `session`: the owner the engine found for the session sent
    * along, if it did. */
  datatype Step =
    | Register(ids: seq<string>, member: Member, now: int)
    | Update(id: string, secretHash: string, publicKey: Option<string>, title: Option<string>,
             deviceId: Option<string>, now: int)
    | Delete(id: string, secretHash: string, everywhere: bool, now: int)
    | RemoveDevice(id: string, secretHash: string, target: string, now: int)
    | Owner(id: string, secretHash: string, session: Option<string>, now: int)
    | Reclaim(session: Option<string>, member: Member, now: int)
    | Mail(id: string, boxes: seq<Box>, now: int)

  datatype Reply = Done | BadRequest | UnknownMailbox | UnknownDevice | NoSession | AddressExists | StoreUnavailable

  // ---- looking up ----

  function BySecret(members: seq<Member>, secretHash: string): (at: Option<nat>)
    ensures at.Some? ==> at.value < |members| && members[at.value].secretHash == secretHash
    ensures forall i :: 0 <= i < (if at.Some? then at.value else |members|) ==> members[i].secretHash != secretHash
  {
    if members == [] then None
    else if members[0].secretHash == secretHash then Some(0)
    else match BySecret(members[1..], secretHash)
      case Some(i) => Some(i + 1)
      case None => None
  }

  function Load(s: World, id: string): Option<Doc> {
    if IsId(id) && id in s.boxes then Some(s.boxes[id]) else None
  }

  /** A member seen within the hour is left as it is. */
  function Touched(doc: Doc, at: nat, now: int): Doc
    requires at < |doc.members|
  {
    if now - doc.members[at].seenAt < SEEN_EVERY_SECS then doc
    else doc.(members := doc.members[at := doc.members[at].(seenAt := now)])
  }

  datatype Mine = Mine(doc: Doc, index: nat)

  /** The mailbox the id and secret open, with the visit recorded, and which member the secret
    * is. */
  function Owned(s: World, id: string, secretHash: string, now: int): (mine: Option<Mine>)
    ensures mine.Some? ==> id in s.boxes && mine.value.index < |mine.value.doc.members|
                           && |mine.value.doc.members| == |s.boxes[id].members|
  {
    match Load(s, id)
    case None => None
    case Some(doc) =>
      match BySecret(doc.members, secretHash)
      case None => None
      case Some(at) => Some(Mine(Touched(doc, at, now), at))
  }

  function Put(s: World, doc: Doc): World {
    s.(boxes := s.boxes[doc.id := doc])
  }

  /** An index entry goes only while it names this mailbox. */
  function Unindexed(index: map<string, string>, owner: string, id: string): (left: map<string, string>)
    ensures forall o :: Lookup(left, o) == if o == owner && Lookup(index, o) == Some(id) then None else Lookup(index, o)
  {
    if owner in index && index[owner] == id then index - {owner} else index
  }

  // ---- routes ----

  /** The first of the random ids not taken. */
  function FreeId(s: World, ids: seq<string>): (id: Option<string>)
    ensures id.Some? ==> id.value in ids && id.value !in s.boxes
    ensures id.None? ==> forall i <- ids :: i in s.boxes
  {
    if ids == [] then None
    else if ids[0] !in s.boxes then Some(ids[0])
    else FreeId(s, ids[1..])
  }

  function Registered(s: World, ids: seq<string>, member: Member, now: int): (World, Reply) {
    match FreeId(s, ids)
    case None => (s, StoreUnavailable)
    case Some(id) => (Put(s, Doc(id, None, [member], now, now)), Done)
  }

  function Updated(s: World, mine: Mine, publicKey: Option<string>, title: Option<string>, deviceId: Option<string>,
                   now: int): (World, Reply)
    requires mine.index < |mine.doc.members|
  {
    if publicKey.None? && title.None? && deviceId.None? then (Put(s, mine.doc), BadRequest)
    else
      var member := mine.doc.members[mine.index];
      var keyed := if publicKey.Some? then member.WithPublicKey(publicKey.value) else member;
      var titled := if title.Some? then keyed.(title := title) else keyed;
      var moved := if deviceId.Some? then titled.(deviceId := deviceId.value) else titled;
      (Put(s, mine.doc.(members := mine.doc.members[mine.index := moved], updatedAt := now)), Done)
  }

  function Deleted(s: World, mine: Mine, everywhere: bool, now: int): (World, Reply)
    requires mine.index < |mine.doc.members|
  {
    if !everywhere && |mine.doc.members| > 1 then
      (Put(s, mine.doc.(members := Removed(mine.doc.members, mine.index), updatedAt := now)), Done)
    else
      var index :=
        if mine.doc.ownerHash.Some? then Unindexed(s.index, mine.doc.ownerHash.value, mine.doc.id) else s.index;
      (World(s.boxes - {mine.doc.id}, index), Done)
  }

  function DeviceRemoved(s: World, mine: Mine, target: string, now: int): (World, Reply)
    requires mine.index < |mine.doc.members|
  {
    var at := FirstOn(mine.doc.members, target);
    if at == |mine.doc.members| then (Put(s, mine.doc), UnknownDevice)
    else if at == mine.index then (Put(s, mine.doc), BadRequest)
    else (Put(s, mine.doc.(members := Removed(mine.doc.members, at), updatedAt := now)), Done)
  }

  /** Ties the mailbox to a student: the latest wins, unless the student has another live one. */
  function Claimed(s: World, mine: Mine, session: Option<string>, now: int): (World, Reply) {
    if session.None? then (Put(s, mine.doc), NoSession)
    else
      var owner, id := session.value, mine.doc.id;
      if owner in s.index && s.index[owner] != id && Load(s, s.index[owner]).Some?
      then (Put(s, mine.doc), AddressExists)
      else
        var index := if mine.doc.ownerHash.Some? && mine.doc.ownerHash.value != owner
          then Unindexed(s.index, mine.doc.ownerHash.value, id) else s.index;
        (World(s.boxes[id := mine.doc.(ownerHash := Some(owner), updatedAt := now)], index[owner := id]), Done)
  }

  function Reclaimed(s: World, session: Option<string>, member: Member, now: int): (World, Reply) {
    if session.None? then (s, NoSession)
    else if session.value !in s.index then (s, UnknownMailbox)
    else
      match Load(s, s.index[session.value])
      case None => (s, UnknownMailbox)
      case Some(doc) =>
        if doc.ownerHash != session then (s, UnknownMailbox)
        else (Put(s, doc.(members := Added(doc.members, member, now), updatedAt := now)), Done)
  }

  function Routed(s: World, step: Step): (World, Reply) {
    match step
    case Register(ids, member, now) => Registered(s, ids, member, now)
    case Update(id, secretHash, publicKey, title, deviceId, now) =>
      (match Owned(s, id, secretHash, now)
       case None => (s, UnknownMailbox)
       case Some(mine) => Updated(s, mine, publicKey, title, deviceId, now))
    case Delete(id, secretHash, everywhere, now) =>
      (match Owned(s, id, secretHash, now)
       case None => (s, UnknownMailbox)
       case Some(mine) => Deleted(s, mine, everywhere, now))
    case RemoveDevice(id, secretHash, target, now) =>
      (match Owned(s, id, secretHash, now)
       case None => (s, UnknownMailbox)
       case Some(mine) => DeviceRemoved(s, mine, target, now))
    case Owner(id, secretHash, session, now) =>
      (match Owned(s, id, secretHash, now)
       case None => (s, UnknownMailbox)
       case Some(mine) => Claimed(s, mine, session, now))
    case Reclaim(session, member, now) => Reclaimed(s, session, member, now)
    case Mail(id, boxes, now) =>
      match Load(s, id)
      case None => (s, UnknownMailbox)
      case Some(doc) => (Put(s, doc.(members := WithBoxes(doc.members, boxes, now), updatedAt := now)), Done)
  }

  /** Ids are made from the alphabet. */
  predicate Enabled(step: Step) {
    step.Register? ==> |step.ids| <= 3 && forall id <- step.ids :: IsId(id)
  }

  ghost predicate IsRun(states: seq<World>, steps: seq<Step>) {
    && |states| == |steps| + 1 && states[0] == INITIAL
    && forall i :: 0 <= i < |steps| ==> Enabled(steps[i]) && states[i + 1] == Routed(states[i], steps[i]).0
  }

  // ---- what every run keeps ----

  predicate BoxesAreLive(s: World) {
    forall id <- s.boxes :: IsId(id) && s.boxes[id].id == id && s.boxes[id].members != []
  }

  /** The index names a mailbox for an owner exactly when that mailbox exists and says so. */
  ghost predicate IndexAgrees(s: World) {
    forall owner, id ::
      (owner in s.index && s.index[owner] == id) <==> (id in s.boxes && s.boxes[id].ownerHash == Some(owner))
  }

  ghost predicate Invariant(s: World) {
    BoxesAreLive(s) && IndexAgrees(s)
  }

  lemma PutKeeps(s: World, doc: Doc)
    requires Invariant(s) && doc.members != []
    requires doc.id in s.boxes && s.boxes[doc.id].ownerHash == doc.ownerHash
    ensures Invariant(Put(s, doc))
  {
    assert IsId(doc.id);
    forall owner, id ensures (owner in s.index && s.index[owner] == id) <==>
                             (id in Put(s, doc).boxes && Put(s, doc).boxes[id].ownerHash == Some(owner)) {
      assert (owner in s.index && s.index[owner] == id) <==> (id in s.boxes && s.boxes[id].ownerHash == Some(owner));
    }
  }

  lemma RegisterKeeps(s: World, ids: seq<string>, member: Member, now: int)
    requires Invariant(s) && forall id <- ids :: IsId(id)
    ensures Invariant(Registered(s, ids, member, now).0)
  {
    var t := Registered(s, ids, member, now).0;
    forall owner, id
      ensures (owner in t.index && t.index[owner] == id) <==> (id in t.boxes && t.boxes[id].ownerHash == Some(owner))
    {
      assert (owner in s.index && s.index[owner] == id) <==> (id in s.boxes && s.boxes[id].ownerHash == Some(owner));
    }
  }

  lemma DeleteKeeps(s: World, mine: Mine)
    requires Invariant(s) && mine.doc.id in s.boxes && s.boxes[mine.doc.id].ownerHash == mine.doc.ownerHash
    requires mine.index < |mine.doc.members|
    ensures Invariant(Deleted(s, mine, true, 0).0)
  {
    var t := Deleted(s, mine, true, 0).0;
    forall owner, id
      ensures (owner in t.index && t.index[owner] == id) <==> (id in t.boxes && t.boxes[id].ownerHash == Some(owner))
    {
      assert (owner in s.index && s.index[owner] == id) <==> (id in s.boxes && s.boxes[id].ownerHash == Some(owner));
      assert (owner in s.index && s.index[owner] == mine.doc.id) <==> mine.doc.ownerHash == Some(owner);
    }
  }

  lemma ClaimKeeps(s: World, mine: Mine, owner: string, now: int)
    requires Invariant(s) && mine.doc.id in s.boxes && s.boxes[mine.doc.id].ownerHash == mine.doc.ownerHash
    requires mine.doc.members != []
    ensures Invariant(Claimed(s, mine, Some(owner), now).0)
  {
    var my := mine.doc.id;
    var t := Claimed(s, mine, Some(owner), now).0;
    assert IsId(my);
    if owner in s.index && s.index[owner] != my {
      assert s.index[owner] in s.boxes && IsId(s.index[owner]);
      PutKeeps(s, mine.doc);
    } else {
      forall o, id ensures (o in t.index && t.index[o] == id) <==> (id in t.boxes && t.boxes[id].ownerHash == Some(o)) {
        assert (o in s.index && s.index[o] == id) <==> (id in s.boxes && s.boxes[id].ownerHash == Some(o));
        assert (o in s.index && s.index[o] == my) <==> mine.doc.ownerHash == Some(o);
      }
    }
  }

  lemma StepKeepsInvariant(s: World, step: Step)
    requires Invariant(s) && Enabled(step)
    ensures Invariant(Routed(s, step).0)
  {
    match step
    case Register(ids, member, now) => RegisterKeeps(s, ids, member, now);
    case Reclaim(session, member, now) =>
      if session.Some? && session.value in s.index && s.index[session.value] in s.boxes {
        var doc := s.boxes[s.index[session.value]];
        PutKeeps(s, doc.(members := Added(doc.members, member, now), updatedAt := now));
      }
    case Mail(id, boxes, now) =>
      if id in s.boxes {
        PutKeeps(s, s.boxes[id].(members := WithBoxes(s.boxes[id].members, boxes, now), updatedAt := now));
      }
    case _ => OwnedStepKeeps(s, step);
  }

  lemma OwnedStepKeeps(s: World, step: Step)
    requires Invariant(s) && !step.Register? && !step.Reclaim? && !step.Mail?
    ensures Invariant(Routed(s, step).0)
  {
    var owned := Owned(s, step.id, step.secretHash, step.now);
    if owned.Some? {
      var mine := owned.value;
      PutKeeps(s, mine.doc);
      match step
      case Update(_, _, publicKey, title, deviceId, now) =>
        PutKeeps(s, Updated(s, mine, publicKey, title, deviceId, now).0.boxes[mine.doc.id]);
      case Delete(_, _, everywhere, now) =>
        if !everywhere && |mine.doc.members| > 1 {
          PutKeeps(s, mine.doc.(members := Removed(mine.doc.members, mine.index), updatedAt := now));
        } else {
          DeleteKeeps(s, mine);
        }
      case RemoveDevice(_, _, target, now) =>
        PutKeeps(s, DeviceRemoved(s, mine, target, now).0.boxes[mine.doc.id]);
      case Owner(_, _, session, now) =>
        if session.Some? {
          ClaimKeeps(s, mine, session.value, now);
        }
    }
  }

  /** Over every run of routes the index and the mailboxes agree, every live mailbox has a
    * member, and so no entry dangles and no student has two live addresses. */
  lemma {:induction false} IndexAndMailboxesAgree(states: seq<World>, steps: seq<Step>, i: nat)
    requires IsRun(states, steps) && i < |states|
    ensures Invariant(states[i])
    ensures forall owner <- states[i].index :: states[i].index[owner] in states[i].boxes
    ensures forall a <- states[i].boxes, b <- states[i].boxes ::
              states[i].boxes[a].ownerHash.Some? && states[i].boxes[a].ownerHash == states[i].boxes[b].ownerHash
              ==> a == b
  {
    if i > 0 {
      IndexAndMailboxesAgree(states, steps, i - 1);
      StepKeepsInvariant(states[i - 1], steps[i - 1]);
    }
    OneAddressEach(states[i]);
  }

  lemma OneAddressEach(s: World)
    requires Invariant(s)
    ensures forall owner <- s.index :: s.index[owner] in s.boxes
    ensures forall a <- s.boxes, b <- s.boxes ::
              s.boxes[a].ownerHash.Some? && s.boxes[a].ownerHash == s.boxes[b].ownerHash ==> a == b
  {
    forall a, b | a in s.boxes && b in s.boxes
                  && s.boxes[a].ownerHash.Some? && s.boxes[a].ownerHash == s.boxes[b].ownerHash
      ensures a == b
    {
      var owner := s.boxes[a].ownerHash.value;
      assert owner in s.index && s.index[owner] == a;
      assert owner in s.index && s.index[owner] == b;
    }
  }

  /** A student refused a second address has another live one; otherwise the claim goes through
    * and is the one a new phone finds again. */
  lemma ClaimedIsReclaimed(s: World, id: string, secretHash: string, owner: string, now: int, member: Member,
                           later: int)
    requires Invariant(s) && Owned(s, id, secretHash, now).Some?
    ensures var (t, reply) := Routed(s, Owner(id, secretHash, Some(owner), now));
            && id in t.boxes && t.boxes[id].members == Visited(s, id, secretHash, now)
            && if exists other <- s.boxes :: other != id && s.boxes[other].ownerHash == Some(owner)
            then reply == AddressExists && t.index == s.index
            else reply == Done && t.boxes.Keys == s.boxes.Keys
                 && Routed(t, Reclaim(Some(owner), member, later)).1 == Done
                 && id in Routed(t, Reclaim(Some(owner), member, later)).0.boxes
                 && member in Routed(t, Reclaim(Some(owner), member, later)).0.boxes[id].members
  {
    var mine := Owned(s, id, secretHash, now).value;
    assert mine.doc.id == id && IsId(id);
    if other :| other in s.boxes && other != id && s.boxes[other].ownerHash == Some(owner) {
      assert owner in s.index && s.index[owner] == other && IsId(other);
    } else if owner in s.index {
      assert s.index[owner] in s.boxes && s.boxes[s.index[owner]].ownerHash == Some(owner);
    }
  }

  // ---- what the routes do to the members ----

  /** No two members have one secret: each is drawn at random. */
  predicate SecretsDistinct(members: seq<Member>) {
    forall i, j :: 0 <= i < j < |members| ==> members[i].secretHash != members[j].secretHash
  }

  /** Whenever the secret is used it opens the mailbox as this member, seen within the hour. */
  ghost predicate OpensAs(s: World, id: string, secretHash: string, member: Member) {
    forall now ::
      var mine := Owned(s, id, secretHash, now);
      && mine.Some? && mine.value.doc.id == id
      && var m := mine.value.doc.members[mine.value.index]; m == member.(seenAt := m.seenAt) && now - m.seenAt < 3600
  }

  ghost predicate OpensNothing(s: World, id: string, secretHash: string) {
    forall now :: Owned(s, id, secretHash, now).None?
  }

  /** An id and a secret open a mailbox exactly when it is there and a member has the secret. It
    * is the first that has, and nothing changes but when that one was seen, once an hour. */
  lemma OpensForMembers(s: World, id: string, secretHash: string, now: int)
    ensures var mine := Owned(s, id, secretHash, now);
            && (mine.Some? <==>
                  IsId(id) && id in s.boxes && exists m <- s.boxes[id].members :: m.secretHash == secretHash)
            && (mine.Some? ==>
                  var members, at := s.boxes[id].members, mine.value.index;
                  && members[at].secretHash == secretHash
                  && (forall i :: 0 <= i < at ==> members[i].secretHash != secretHash)
                  && mine.value.doc == s.boxes[id].(members := members[at := mine.value.doc.members[at]])
                  && mine.value.doc.members[at] == members[at].(
                       seenAt := if now - members[at].seenAt < 3600 then members[at].seenAt else now))
  {
    var mine := Owned(s, id, secretHash, now);
    if mine.Some? {
      var members, at := s.boxes[id].members, mine.value.index;
      assert members[at] in members;
      assert mine.value.doc.members == members[at := mine.value.doc.members[at]];
    }
  }

  lemma MemberOpens(s: World, id: string, i: nat)
    requires BoxesAreLive(s) && id in s.boxes && i < |s.boxes[id].members|
    requires forall j :: 0 <= j < i ==> s.boxes[id].members[j].secretHash != s.boxes[id].members[i].secretHash
    ensures OpensAs(s, id, s.boxes[id].members[i].secretHash, s.boxes[id].members[i])
  {
    var members := s.boxes[id].members;
    assert BySecret(members, members[i].secretHash) == Some(i);
  }

  lemma NobodyOpens(s: World, id: string, secretHash: string)
    requires id in s.boxes ==>
               forall i :: 0 <= i < |s.boxes[id].members| ==> s.boxes[id].members[i].secretHash != secretHash
    ensures OpensNothing(s, id, secretHash)
  {
    assert id in s.boxes ==> BySecret(s.boxes[id].members, secretHash).None?;
  }

  /** One member is gone, the others are as they were, in order. */
  predicate WithoutOne(before: seq<Member>, after: seq<Member>, at: nat) {
    && at < |before| && |after| == |before| - 1
    && forall i :: 0 <= i < |after| ==> after[i] == before[if i < at then i else i + 1]
  }

  /** The member with this secret is gone, and the secret opens nothing; the others are as they
    * were, in order, and each still opens the mailbox with its own. */
  ghost predicate LostOne(s: World, before: seq<Member>, id: string, at: nat) {
    && id in s.boxes && WithoutOne(before, s.boxes[id].members, at)
    && OpensNothing(s, id, before[at].secretHash)
    && forall i :: 0 <= i < |before| && i != at ==> OpensAs(s, id, before[i].secretHash, before[i])
  }

  lemma LosingOne(s: World, before: seq<Member>, id: string, at: nat)
    requires BoxesAreLive(s) && id in s.boxes && WithoutOne(before, s.boxes[id].members, at) && SecretsDistinct(before)
    ensures LostOne(s, before, id, at)
  {
    NobodyOpens(s, id, before[at].secretHash);
    forall i | 0 <= i < |before| && i != at ensures OpensAs(s, id, before[i].secretHash, before[i]) {
      MemberOpens(s, id, if i < at then i else i - 1);
    }
  }

  /** Nothing changed but one mailbox's members and when it was. */
  predicate OnlyMembers(s: World, t: World, id: string, now: int) {
    && id in s.boxes && id in t.boxes
    && t == s.(boxes := s.boxes[id := s.boxes[id].(members := t.boxes[id].members, updatedAt := now)])
  }

  /** What leaving does to the world. */
  ghost predicate HasLeft(s: World, t: World, reply: Reply, id: string, secretHash: string, everywhere: bool, now: int)
    requires id in s.boxes
  {
    && reply == Done
    && if everywhere || |s.boxes[id].members| == 1
       then
         && t.boxes == s.boxes - {id}
         && forall owner :: Lookup(t.index, owner) ==
              if Lookup(s.index, owner) == Some(id) then None else Lookup(s.index, owner)
       else
         && OnlyMembers(s, t, id, now)
         && (SecretsDistinct(s.boxes[id].members) ==>
               exists at: nat :: LostOne(t, s.boxes[id].members, id, at)
                                 && s.boxes[id].members[at].secretHash == secretHash)
  }

  /** Leaving takes out the caller and nobody else while others use the address; by the last
    * one, or for all, the address and its index entry and nothing else. */
  lemma DeleteLeavesOthers(s: World, id: string, secretHash: string, everywhere: bool, now: int)
    requires Invariant(s) && Owned(s, id, secretHash, now).Some?
    ensures var (t, reply) := Routed(s, Delete(id, secretHash, everywhere, now));
            HasLeft(s, t, reply, id, secretHash, everywhere, now)
  {
    if everywhere || |s.boxes[id].members| == 1 {
      AddressGoes(s, id, secretHash, everywhere, now);
    } else {
      CallerLeaves(s, id, secretHash, now);
    }
  }

  lemma CallerLeaves(s: World, id: string, secretHash: string, now: int)
    requires Invariant(s) && Owned(s, id, secretHash, now).Some? && |s.boxes[id].members| > 1
    ensures var (t, reply) := Routed(s, Delete(id, secretHash, false, now));
            HasLeft(s, t, reply, id, secretHash, false, now)
  {
    var t := Routed(s, Delete(id, secretHash, false, now)).0;
    StepKeepsInvariant(s, Delete(id, secretHash, false, now));
    var at := BySecret(s.boxes[id].members, secretHash).value;
    assert WithoutOne(s.boxes[id].members, t.boxes[id].members, at);
    if SecretsDistinct(s.boxes[id].members) {
      LosingOne(t, s.boxes[id].members, id, at);
    }
  }

  lemma AddressGoes(s: World, id: string, secretHash: string, everywhere: bool, now: int)
    requires Invariant(s) && Owned(s, id, secretHash, now).Some?
    requires everywhere || |s.boxes[id].members| == 1
    ensures var (t, reply) := Routed(s, Delete(id, secretHash, everywhere, now));
            HasLeft(s, t, reply, id, secretHash, everywhere, now)
  {
    var t := Routed(s, Delete(id, secretHash, everywhere, now)).0;
    forall owner ensures Lookup(t.index, owner) ==
                           if Lookup(s.index, owner) == Some(id) then None else Lookup(s.index, owner) {
      assert (owner in s.index && s.index[owner] == id) <==> s.boxes[id].ownerHash == Some(owner);
    }
  }

  /** The members as the caller's own visit leaves them. */
  function Visited(s: World, id: string, secretHash: string, now: int): seq<Member>
    requires Owned(s, id, secretHash, now).Some?
  {
    Owned(s, id, secretHash, now).value.doc.members
  }

  /** What taking out an install does, to members as the caller's visit left them: unknown when
    * no member has it, refused when the caller is the first that has, else that first one goes
    * and nobody else. */
  ghost predicate HasTakenOut(s: World, t: World, reply: Reply, id: string, secretHash: string, before: seq<Member>,
                              target: string, now: int)
    requires id in s.boxes
  {
    if forall m <- before :: m.deviceId != target
    then reply == UnknownDevice && t == Put(s, s.boxes[id].(members := before))
    else
      exists at: nat ::
        && IsFirstOn(before, at) && before[at].deviceId == target
        && if before[at].secretHash == secretHash
           then reply == BadRequest && t == Put(s, s.boxes[id].(members := before))
           else reply == Done && OnlyMembers(s, t, id, now) && LostOne(t, before, id, at)
  }

  lemma RemoveTakesOther(s: World, id: string, secretHash: string, target: string, now: int)
    requires Invariant(s) && Owned(s, id, secretHash, now).Some? && SecretsDistinct(s.boxes[id].members)
    ensures var (t, reply) := Routed(s, RemoveDevice(id, secretHash, target, now));
            HasTakenOut(s, t, reply, id, secretHash, Visited(s, id, secretHash, now), target, now)
  {
    var mine := Owned(s, id, secretHash, now).value;
    assert Routed(s, RemoveDevice(id, secretHash, target, now)) == DeviceRemoved(s, mine, target, now);
    StepKeepsInvariant(s, RemoveDevice(id, secretHash, target, now));
    DeviceRemovedTakesOther(s, mine, id, target, now);
  }

  lemma DeviceRemovedTakesOther(s: World, mine: Mine, id: string, target: string, now: int)
    requires id in s.boxes && mine.index < |mine.doc.members| && SecretsDistinct(mine.doc.members)
    requires mine.doc == s.boxes[id].(members := mine.doc.members) && mine.doc.id == id
    requires BoxesAreLive(DeviceRemoved(s, mine, target, now).0)
    ensures var (t, reply) := DeviceRemoved(s, mine, target, now);
            HasTakenOut(s, t, reply, id, mine.doc.members[mine.index].secretHash, mine.doc.members, target, now)
  {
    var before, at := mine.doc.members, FirstOn(mine.doc.members, target);
    var t := DeviceRemoved(s, mine, target, now).0;
    if at < |before| {
      assert IsFirstOn(before, at) && before[at] in before;
      if at != mine.index {
        assert WithoutOne(before, t.boxes[id].members, at);
        LosingOne(t, before, id, at);
      }
    }
  }

  /** An update changes the caller's own entry, as asked, and no other; a box for the old key
    * goes with it. */
  lemma UpdateChangesOwn(s: World, id: string, secretHash: string, publicKey: Option<string>, title: Option<string>,
                         deviceId: Option<string>, now: int)
    requires Invariant(s) && Owned(s, id, secretHash, now).Some?
    ensures var (t, reply) := Routed(s, Update(id, secretHash, publicKey, title, deviceId, now));
            var before, own := Visited(s, id, secretHash, now), Owned(s, id, secretHash, now).value.index;
            && (reply == BadRequest <==> publicKey.None? && title.None? && deviceId.None?)
            && id in t.boxes && |t.boxes[id].members| == |before|
            && (forall i :: 0 <= i < |before| && i != own ==> t.boxes[id].members[i] == before[i])
            && if reply == BadRequest then t == Put(s, s.boxes[id].(members := before))
               else
                 var was, after := before[own], t.boxes[id].members[own];
                 && reply == Done && OnlyMembers(s, t, id, now) && after.secretHash == secretHash
                 && after.publicKey == (if publicKey.Some? then publicKey.value else was.publicKey)
                 && after.title == (if title.Some? then title else was.title)
                 && after.deviceId == (if deviceId.Some? then deviceId.value else was.deviceId)
                 && (after.publicKey != was.publicKey ==> after.sealed.None?)
                 && (after.publicKey == was.publicKey ==> after.sealed == was.sealed && after.sealedAt == was.sealedAt)
  {
  }

  /** A new address: under an id nobody has, with its first member alone, who opens it. */
  lemma RegisterOpens(s: World, ids: seq<string>, member: Member, now: int)
    requires Invariant(s) && forall id <- ids :: IsId(id)
    ensures var (t, reply) := Routed(s, Register(ids, member, now));
            && (reply == Done <==> exists id <- ids :: id !in s.boxes)
            && (reply != Done ==> reply == StoreUnavailable && t == s)
            && (reply == Done ==>
                  exists id <- ids ::
                    && id !in s.boxes && id in t.boxes && t == s.(boxes := s.boxes[id := t.boxes[id]])
                    && t.boxes[id] == Doc(id, None, [member], now, now) && OpensAs(t, id, member.secretHash, member))
  {
    var t := Routed(s, Register(ids, member, now)).0;
    var id := FreeId(s, ids);
    if id.Some? {
      RegisterKeeps(s, ids, member, now);
      assert t.boxes[id.value].members == [member];
      MemberOpens(t, id.value, 0);
    }
  }

  /** A student signed in joins the address they own, if there is one, and only that way; the new
    * member's secret opens it. */
  lemma ReclaimJoins(s: World, session: Option<string>, member: Member, now: int)
    requires Invariant(s)
    ensures var (t, reply) := Routed(s, Reclaim(session, member, now));
            && (reply == Done <==> exists id <- s.boxes :: session.Some? && s.boxes[id].ownerHash == session)
            && (reply == NoSession <==> session.None?)
            && (reply != Done ==> t == s && (reply == NoSession || reply == UnknownMailbox))
            && (reply == Done ==>
                  var id := s.index[session.value];
                  && s.boxes[id].ownerHash == session && OnlyMembers(s, t, id, now)
                  && t.boxes[id].members == Added(s.boxes[id].members, member, now)
                  && ((forall m <- s.boxes[id].members :: m.secretHash != member.secretHash) ==>
                        OpensAs(t, id, member.secretHash, member)))
  {
    var t := Routed(s, Reclaim(session, member, now)).0;
    if session.Some? && session.value in s.index {
      var id := s.index[session.value];
      assert id in s.boxes && s.boxes[id].ownerHash == session && IsId(id);
      StepKeepsInvariant(s, Reclaim(session, member, now));
      var after := t.boxes[id].members;
      if forall m <- s.boxes[id].members :: m.secretHash != member.secretHash {
        assert forall i :: 0 <= i < |after| - 1 ==> after[i] in after[..|after| - 1];
        MemberOpens(t, id, |after| - 1);
      }
    } else if session.Some? {
      forall id | id in s.boxes ensures s.boxes[id].ownerHash != session {
        assert session.value !in s.index;
      }
    }
  }

  /** A code that comes by mail for an install is what its member finds, for five minutes. */
  lemma MailIsCollected(s: World, id: string, boxes: seq<Box>, now: int, i: nat, later: int)
    requires Invariant(s) && id in s.boxes && SecretsDistinct(s.boxes[id].members)
    requires IsFirstOn(s.boxes[id].members, i) && now <= later
    requires LastFor(boxes, s.boxes[id].members[i].deviceId).Some?
    ensures var member := s.boxes[id].members[i];
            var (t, reply) := Routed(s, Mail(id, boxes, now));
            var mine := Owned(t, id, member.secretHash, later);
            && reply == Done && OnlyMembers(s, t, id, now) && mine.Some?
            && mine.value.doc.members[mine.value.index].FreshSealed(later) ==
                 if later <= now + 300 then LastFor(boxes, member.deviceId) else None
  {
    var doc := s.boxes[id];
    var members := WithBoxes(doc.members, boxes, now);
    var t := Put(s, doc.(members := members, updatedAt := now));
    assert Routed(s, Mail(id, boxes, now)) == (t, Done);
    BoxesKeepSecrets(doc.members, boxes, now);
    BoxesReachInstalls(doc.members, boxes, now, i, later);
    CollectedBy(t, id, i, later);
  }

  /** A member with a secret of its own finds its box. */
  lemma CollectedBy(s: World, id: string, i: nat, now: int)
    requires IsId(id) && id in s.boxes && i < |s.boxes[id].members|
    requires forall j :: 0 <= j < i ==> s.boxes[id].members[j].secretHash != s.boxes[id].members[i].secretHash
    ensures var mine := Owned(s, id, s.boxes[id].members[i].secretHash, now);
            mine.Some? && mine.value.doc.members[mine.value.index].FreshSealed(now) ==
                            s.boxes[id].members[i].FreshSealed(now)
  {
    assert BySecret(s.boxes[id].members, s.boxes[id].members[i].secretHash) == Some(i);
  }

  lemma BoxesKeepSecrets(members: seq<Member>, boxes: seq<Box>, now: int)
    ensures forall j :: 0 <= j < |members| ==>
              WithBoxes(members, boxes, now)[j].secretHash == members[j].secretHash
  {
    forall j | 0 <= j < |members| ensures WithBoxes(members, boxes, now)[j].secretHash == members[j].secretHash {
      BoxesReachInstalls(members, boxes, now, j, now);
    }
  }

  /** The mailbox a route is about. */
  function About(s: World, step: Step): Option<string> {
    match step
    case Register(ids, _, _) => FreeId(s, ids)
    case Reclaim(session, _, _) => if session.Some? then Lookup(s.index, session.value) else None
    case _ => Some(step.id)
  }

  /** A route leaves every other mailbox as it is; only a claim and leaving touch the index. */
  lemma OtherMailboxesStay(s: World, step: Step, other: string)
    requires Invariant(s) && Some(other) != About(s, step)
    ensures Lookup(Routed(s, step).0.boxes, other) == Lookup(s.boxes, other)
    ensures !step.Owner? && !step.Delete? ==> Routed(s, step).0.index == s.index
  {
    match step
    case Register(_, _, _) =>
    case Reclaim(_, _, _) =>
    case Mail(_, _, _) =>
    case _ => OwnMailboxOnly(s, step, other);
  }

  lemma OwnMailboxOnly(s: World, step: Step, other: string)
    requires BoxesAreLive(s) && !step.Register? && !step.Reclaim? && !step.Mail? && other != step.id
    ensures Lookup(Routed(s, step).0.boxes, other) == Lookup(s.boxes, other)
    ensures !step.Owner? && !step.Delete? ==> Routed(s, step).0.index == s.index
  {
    if Owned(s, step.id, step.secretHash, step.now).Some? {
      assert Owned(s, step.id, step.secretHash, step.now).value.doc.id == step.id;
    }
  }

  // ---- the worker ----

  class MailWorker {
    var boxes: map<string, Doc>
    var index: map<string, string>

    constructor ()
      ensures Now() == INITIAL
    {
      boxes, index := map[], map[];
    }

    function Now(): World
      reads this
    {
      World(boxes, index)
    }

    method Save(doc: Doc)
      modifies this`boxes
      ensures Now() == Put(old(Now()), doc)
    {
      boxes := boxes[doc.id := doc];
    }

    /** The caller's mailbox, if the id and secret open one; records the visit. */
    method Open(id: string, secretHash: string, now: int) returns (mine: Option<Mine>)
      requires BoxesAreLive(Now())
      modifies this`boxes
      ensures mine == Owned(old(Now()), id, secretHash, now)
      ensures Now() == if mine.Some? then Put(old(Now()), mine.value.doc) else old(Now())
    {
      if !IsId(id) || id !in boxes {
        return None;
      }
      var doc := boxes[id];
      var at := BySecret(doc.members, secretHash);
      if at.None? {
        return None;
      }
      if now - doc.members[at.value].seenAt >= SEEN_EVERY_SECS {
        doc := doc.(members := doc.members[at.value := doc.members[at.value].(seenAt := now)]);
        Save(doc);
      }
      assert boxes == boxes[doc.id := doc];
      return Some(Mine(doc, at.value));
    }

    method MailRegister(ids: seq<string>, member: Member, now: int) returns (reply: Reply)
      modifies this
      ensures (Now(), reply) == Registered(old(Now()), ids, member, now)
    {
      var attempt := 0;
      while attempt < |ids|
        invariant 0 <= attempt <= |ids|
        invariant FreeId(Now(), ids) == FreeId(Now(), ids[attempt..])
        invariant Now() == old(Now())
      {
        if ids[attempt] !in boxes {
          break;
        }
        attempt := attempt + 1;
      }
      if attempt == |ids| {
        return StoreUnavailable;
      }
      Save(Doc(ids[attempt], None, [member], now, now));
      return Done;
    }

    method MailOwner(id: string, secretHash: string, session: Option<string>, now: int) returns (reply: Reply)
      requires BoxesAreLive(Now())
      modifies this
      ensures (Now(), reply) == Routed(old(Now()), Owner(id, secretHash, session, now))
    {
      var mine := Open(id, secretHash, now);
      if mine.None? {
        return UnknownMailbox;
      }
      var doc := mine.value.doc;
      if session.None? {
        return NoSession;
      }
      var owner := session.value;
      // One address per student: the other one is live.
      if owner in index && index[owner] != doc.id && IsId(index[owner]) && index[owner] in boxes {
        return AddressExists;
      }
      if doc.ownerHash.Some? && doc.ownerHash.value != owner {
        index := Unindexed(index, doc.ownerHash.value, doc.id);
      }
      doc := doc.(ownerHash := Some(owner), updatedAt := now);
      Save(doc);
      index := index[owner := doc.id];
      assert boxes == old(boxes)[doc.id := doc];
      return Done;
    }

    method MailReclaim(session: Option<string>, member: Member, now: int) returns (reply: Reply)
      requires BoxesAreLive(Now())
      modifies this
      ensures (Now(), reply) == Reclaimed(old(Now()), session, member, now)
    {
      if session.None? {
        return NoSession;
      }
      if session.value !in index {
        return UnknownMailbox;
      }
      var id := index[session.value];
      if !IsId(id) || id !in boxes || boxes[id].ownerHash != session {
        return UnknownMailbox;
      }
      var doc := boxes[id];
      Save(doc.(members := Added(doc.members, member, now), updatedAt := now));
      return Done;
    }

    method MailDelete(id: string, secretHash: string, everywhere: bool, now: int) returns (reply: Reply)
      requires BoxesAreLive(Now())
      modifies this
      ensures (Now(), reply) == Routed(old(Now()), Delete(id, secretHash, everywhere, now))
      ensures Invariant(old(Now())) && Owned(old(Now()), id, secretHash, now).Some? ==>
                HasLeft(old(Now()), Now(), reply, id, secretHash, everywhere, now)
    {
      ghost var before := Now();
      var mine := Open(id, secretHash, now);
      if mine.None? {
        return UnknownMailbox;
      }
      reply := Leave(before, mine.value, everywhere, now);
      assert (Now(), reply) == Routed(before, Delete(id, secretHash, everywhere, now));
      if Invariant(before) {
        DeleteLeavesOthers(before, id, secretHash, everywhere, now);
      }
    }

    /** Takes out the member, or the mailbox with its index entry. */
    method Leave(ghost before: World, mine: Mine, everywhere: bool, now: int) returns (reply: Reply)
      requires mine.index < |mine.doc.members| && Now() == Put(before, mine.doc)
      modifies this
      ensures (Now(), reply) == Deleted(before, mine, everywhere, now)
    {
      var doc := mine.doc;
      if !everywhere && |doc.members| > 1 {
        doc := doc.(members := Removed(doc.members, mine.index), updatedAt := now);
        Save(doc);
        assert boxes == before.boxes[doc.id := doc];
        return Done;
      }
      if doc.ownerHash.Some? {
        index := Unindexed(index, doc.ownerHash.value, doc.id);
      }
      boxes := boxes - {doc.id};
      assert boxes == before.boxes - {doc.id};
      return Done;
    }

    method MailRemoveDevice(id: string, secretHash: string, target: string, now: int) returns (reply: Reply)
      requires BoxesAreLive(Now())
      modifies this
      ensures (Now(), reply) == Routed(old(Now()), RemoveDevice(id, secretHash, target, now))
      ensures Invariant(old(Now())) && Owned(old(Now()), id, secretHash, now).Some?
              && SecretsDistinct(old(boxes)[id].members) ==>
                HasTakenOut(old(Now()), Now(), reply, id, secretHash, Visited(old(Now()), id, secretHash, now),
                            target, now)
    {
      if Invariant(Now()) && Owned(Now(), id, secretHash, now).Some? && SecretsDistinct(boxes[id].members) {
        RemoveTakesOther(Now(), id, secretHash, target, now);
      }
      var mine := Open(id, secretHash, now);
      if mine.None? {
        return UnknownMailbox;
      }
      var doc := mine.value.doc;
      var at := FirstOn(doc.members, target);
      if at == |doc.members| {
        return UnknownDevice;
      }
      if at == mine.value.index {
        return BadRequest;
      }
      doc := doc.(members := Removed(doc.members, at), updatedAt := now);
      Save(doc);
      assert boxes == old(boxes)[doc.id := doc];
      return Done;
    }
  }
}
