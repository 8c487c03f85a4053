/** What saves onto one account's tables keep, undo and lose, over every interleaving of
  * requests that load, wait, and save. */
module AccountMerging {
  import opened Options
  import opened Lists
  import opened AccountRecords
  import opened AccountStore

  /** A table after its rows are merged one by one; a row nobody holds stays absent. */
  function MergeTable<V>(stored: map<string, V>, base: map<string, V>, doc: map<string, V>,
                         merge: (Option<V>, Option<V>, Option<V>) -> Option<V>): (merged: map<string, V>)
    requires forall k :: merge(None, Lookup(base, k), None).None?
    ensures forall k :: Lookup(merged, k) == merge(Lookup(stored, k), Lookup(base, k), Lookup(doc, k))
  {
    map k | k in stored.Keys + doc.Keys && merge(Lookup(stored, k), Lookup(base, k), Lookup(doc, k)).Some?
        :: merge(Lookup(stored, k), Lookup(base, k), Lookup(doc, k)).value
  }

  /** The tables after a save. */
  function Merge(stored: View, base: View, doc: View): (merged: View)
    ensures IsMerged(merged, stored, base, doc)
  {
    var columns: Columns := map c: Column | true :: MergeColumn(stored.columns[c], base.columns[c], doc.columns[c]);
    View(columns, MergeTable(stored.keys, base.keys, doc.keys, MergeKey),
         MergeTable(stored.phones, base.phones, doc.phones, MergePhone))
  }

  lemma MergedIsUnique(a: View, b: View, stored: View, base: View, doc: View)
    requires IsMerged(a, stored, base, doc) && IsMerged(b, stored, base, doc)
    ensures a == b
  {
    SameTable(a.keys, b.keys);
    SameTable(a.phones, b.phones);
    forall c ensures a.columns[c] == b.columns[c] {
      assert a.columns[c] == MergeColumn(stored.columns[c], base.columns[c], doc.columns[c]);
    }
    assert a.columns == b.columns;
  }

  // ---- alone ----

  /** Keys are never given another creation time. */
  predicate KeepsCreation(base: View, doc: View) {
    forall h :: h in base.keys && h in doc.keys ==>
      doc.keys[h].createdAt == base.keys[h].createdAt && doc.keys[h].hash == base.keys[h].hash
  }

  /** With nobody else saving, the tables become the record. */
  lemma SaveAloneStoresRecord(base: View, doc: View)
    requires KeepsCreation(base, doc)
    ensures Merge(base, base, doc) == doc
  {
    var merged := Merge(base, base, doc);
    forall h ensures Lookup(merged.keys, h) == Lookup(doc.keys, h) {
      if h in base.keys && h in doc.keys {
        assert Lookup(base.keys, h) == Some(base.keys[h]) && Lookup(doc.keys, h) == Some(doc.keys[h]);
      }
    }
    SameTable(merged.keys, doc.keys);
    forall d ensures Lookup(merged.phones, d) == Lookup(doc.phones, d) {
      assert Lookup(merged.phones, d) ==
             MergePhone(Lookup(base.phones, d), Lookup(base.phones, d), Lookup(doc.phones, d));
    }
    SameTable(merged.phones, doc.phones);
    assert merged.columns == doc.columns;
  }

  /** A save that changed nothing leaves the tables as they are now, whatever was loaded. */
  lemma UnchangedSaveKeepsStore(stored: View, base: View)
    ensures Merge(stored, base, base) == stored
  {
    var merged := Merge(stored, base, base);
    forall h ensures Lookup(merged.keys, h) == Lookup(stored.keys, h) {
      assert Lookup(merged.keys, h) == MergeKey(Lookup(stored.keys, h), Lookup(base.keys, h), Lookup(base.keys, h));
    }
    SameTable(merged.keys, stored.keys);
    forall d ensures Lookup(merged.phones, d) == Lookup(stored.phones, d) {
      assert Lookup(merged.phones, d) ==
             MergePhone(Lookup(stored.phones, d), Lookup(base.phones, d), Lookup(base.phones, d));
    }
    SameTable(merged.phones, stored.phones);
    assert merged.columns == stored.columns;
  }

  // ---- two requests ----

  predicate KeyTouched(base: Option<Key>, doc: Option<Key>) {
    base.Some? != doc.Some? || (base.Some? && doc.Some? && !SameKey(base.value, doc.value))
  }

  /** Neither changed a column (but the save time), key or phone the other changed. */
  ghost predicate DisjointChanges(baseA: View, a: View, baseB: View, b: View) {
    && (forall c :: c != UpdatedAt ==> a.columns[c] == baseA.columns[c] || b.columns[c] == baseB.columns[c])
    && (forall h :: !KeyTouched(Lookup(baseA.keys, h), Lookup(a.keys, h))
                    || !KeyTouched(Lookup(baseB.keys, h), Lookup(b.keys, h)))
    && (forall d :: Lookup(a.phones, d) == Lookup(baseA.phones, d) || Lookup(b.phones, d) == Lookup(baseB.phones, d))
  }

  /** Everything equal but the save time. */
  ghost predicate SameButTime(a: View, b: View) {
    && a.keys == b.keys && a.phones == b.phones
    && forall c :: c != UpdatedAt ==> a.columns[c] == b.columns[c]
  }

  lemma KeyMergesCommute(s: Option<Key>, baseA: Option<Key>, a: Option<Key>, baseB: Option<Key>, b: Option<Key>)
    requires !KeyTouched(baseA, a) || !KeyTouched(baseB, b)
    ensures MergeKey(MergeKey(s, baseA, a), baseB, b) == MergeKey(MergeKey(s, baseB, b), baseA, a)
  {
    assert !KeyTouched(baseA, a) ==> forall t :: MergeKey(t, baseA, a) == t;
    assert !KeyTouched(baseB, b) ==> forall t :: MergeKey(t, baseB, b) == t;
  }

  lemma PhoneMergesCommute(s: Option<Phone>, baseA: Option<Phone>, a: Option<Phone>, baseB: Option<Phone>,
                           b: Option<Phone>)
    requires a == baseA || b == baseB
    ensures MergePhone(MergePhone(s, baseA, a), baseB, b) == MergePhone(MergePhone(s, baseB, b), baseA, a)
  {
    assert a == baseA ==> forall t :: MergePhone(t, baseA, a) == t;
    assert b == baseB ==> forall t :: MergePhone(t, baseB, b) == t;
  }

  /** Two requests with disjoint changes leave the same tables whichever saves last,
    * whatever each had loaded and whatever is stored. */
  lemma DisjointSavesCommute(stored: View, baseA: View, a: View, baseB: View, b: View)
    requires DisjointChanges(baseA, a, baseB, b)
    ensures SameButTime(Merge(Merge(stored, baseA, a), baseB, b), Merge(Merge(stored, baseB, b), baseA, a))
  {
    var ab, ba := Merge(Merge(stored, baseA, a), baseB, b), Merge(Merge(stored, baseB, b), baseA, a);
    KeysCommute(stored, baseA, a, baseB, b);
    PhonesCommute(stored, baseA, a, baseB, b);
    forall c | c != UpdatedAt ensures ab.columns[c] == ba.columns[c] {
      assert a.columns[c] == baseA.columns[c] || b.columns[c] == baseB.columns[c];
    }
  }

  lemma KeysCommute(stored: View, baseA: View, a: View, baseB: View, b: View)
    requires DisjointChanges(baseA, a, baseB, b)
    ensures Merge(Merge(stored, baseA, a), baseB, b).keys == Merge(Merge(stored, baseB, b), baseA, a).keys
  {
    var ab, ba := Merge(Merge(stored, baseA, a), baseB, b).keys, Merge(Merge(stored, baseB, b), baseA, a).keys;
    forall h ensures Lookup(ab, h) == Lookup(ba, h) {
      KeyMergesCommute(Lookup(stored.keys, h), Lookup(baseA.keys, h), Lookup(a.keys, h),
                       Lookup(baseB.keys, h), Lookup(b.keys, h));
    }
    SameTable(ab, ba);
  }

  lemma PhonesCommute(stored: View, baseA: View, a: View, baseB: View, b: View)
    requires DisjointChanges(baseA, a, baseB, b)
    ensures Merge(Merge(stored, baseA, a), baseB, b).phones == Merge(Merge(stored, baseB, b), baseA, a).phones
  {
    var ab, ba := Merge(Merge(stored, baseA, a), baseB, b).phones, Merge(Merge(stored, baseB, b), baseA, a).phones;
    forall d ensures Lookup(ab, d) == Lookup(ba, d) {
      PhoneMergesCommute(Lookup(stored.phones, d), Lookup(baseA.phones, d), Lookup(a.phones, d),
                         Lookup(baseB.phones, d), Lookup(b.phones, d));
    }
    SameTable(ab, ba);
  }

  // ---- what is lost ----

  /** What another request made meanwhile of a field of a key that this request left alone
    * survives its save exactly when it left the key's three other fields alone too: the update
    * writes all four. The time of creation always survives. */
  lemma KeyFieldsSurviveUntouchedKey(stored: View, base: View, doc: View, h: string)
    requires h in stored.keys && h in base.keys && h in doc.keys
    ensures h in Merge(stored, base, doc).keys
    ensures var now, was, mine, merged := stored.keys[h], base.keys[h], doc.keys[h], Merge(stored, base, doc).keys[h];
            && (mine.outings == was.outings != now.outings ==> (merged.outings == now.outings <==> SameKey(was, mine)))
            && (mine.deviceId == was.deviceId != now.deviceId ==>
                  (merged.deviceId == now.deviceId <==> SameKey(was, mine)))
            && (mine.lastUsedAt == was.lastUsedAt != now.lastUsedAt ==>
                  (merged.lastUsedAt == now.lastUsedAt <==> SameKey(was, mine)))
            && (mine.title == was.title != now.title ==> (merged.title == now.title <==> SameKey(was, mine)))
            && merged.createdAt == now.createdAt && merged.hash == now.hash
  {
    var merged := Merge(stored, base, doc);
    assert Lookup(merged.keys, h) == MergeKey(Some(stored.keys[h]), Some(base.keys[h]), Some(doc.keys[h]));
  }

  /** The same for a phone still linked, whose whole row a changed record replaces. */
  lemma PhoneFieldsSurviveUntouchedPhone(stored: View, base: View, doc: View, d: string)
    requires d in stored.phones && d in base.phones && d in doc.phones
    ensures d in Merge(stored, base, doc).phones
    ensures var now, was, mine := stored.phones[d], base.phones[d], doc.phones[d];
            var merged := Merge(stored, base, doc).phones[d];
            && (mine.secretHash == was.secretHash != now.secretHash ==>
                  (merged.secretHash == now.secretHash <==> mine == was))
            && (mine.title == was.title != now.title ==> (merged.title == now.title <==> mine == was))
            && (mine.addedAt == was.addedAt != now.addedAt ==> (merged.addedAt == now.addedAt <==> mine == was))
            && (mine.seenAt == was.seenAt != now.seenAt ==> (merged.seenAt == now.seenAt <==> mine == was))
  {
    var merged := Merge(stored, base, doc);
    assert Lookup(merged.phones, d) == MergePhone(Some(stored.phones[d]), Some(base.phones[d]), Some(doc.phones[d]));
  }

  /** A phone unlinked meanwhile stays unlinked through a save that kept it exactly when the
    * save left its record alone: a changed one is inserted again. */
  lemma UnlinkedPhoneStaysUnlinked(stored: View, base: View, doc: View, d: string)
    requires d !in stored.phones && d in base.phones && d in doc.phones
    ensures d !in Merge(stored, base, doc).phones <==> doc.phones[d] == base.phones[d]
  {
    var merged := Merge(stored, base, doc);
    assert Lookup(merged.phones, d) == MergePhone(None, Some(base.phones[d]), Some(doc.phones[d]));
  }

  /** No save brings back a key that it had loaded and that is gone from the table by then. */
  lemma RevokedKeyIsNotInserted(stored: View, base: View, doc: View, h: string)
    requires h !in stored.keys && (h in base.keys || h !in doc.keys)
    ensures h !in Merge(stored, base, doc).keys
  {
    assert Lookup(Merge(stored, base, doc).keys, h) == MergeKey(None, Lookup(base.keys, h), Lookup(doc.keys, h));
  }

  // ---- runs of saves on one column ----

  datatype Save = Save(base: View, doc: View)

  function After(stored: View, saves: seq<Save>): View {
    if saves == [] then stored
    else
      var last := saves[|saves| - 1];
      Merge(After(stored, saves[..|saves| - 1]), last.base, last.doc)
  }

  /** The last save that changed a column, if any did. */
  function LastWriter(saves: seq<Save>, column: Column): Option<Save> {
    if saves == [] then None
    else
      var last := saves[|saves| - 1];
      if last.doc.columns[column] != last.base.columns[column] then Some(last)
      else LastWriter(saves[..|saves| - 1], column)
  }

  /** After any run of saves a column holds what the last request that changed it wrote. */
  lemma {:induction false} LastWriterWins(stored: View, saves: seq<Save>, column: Column)
    ensures After(stored, saves).columns[column] ==
              match LastWriter(saves, column)
              case Some(save) => save.doc.columns[column]
              case None => stored.columns[column]
  {
    if saves != [] {
      LastWriterWins(stored, saves[..|saves| - 1], column);
    }
  }

  // ---- every interleaving: revoked keys ----

  /** A request between loading and finishing. */
  datatype Request = Request(base: View, doc: View)

  /** `used`: every key hash so far. `revoked`: those a save has taken out of the tables. */
  datatype System = System(stored: View, live: map<nat, Request>, used: set<string>, revoked: set<string>)

  datatype Step =
    | Load(r: nat)
    | Edit(r: nat, doc: View)
    | SaveStep(r: nat)
    | Finish(r: nat)

  /** A request is edited only while live; a key it adds is a new random one. */
  predicate Enabled(s: System, step: Step) {
    match step
    case Load(r) => r !in s.live
    case Edit(r, doc) => r in s.live && forall h :: h in doc.keys && h !in s.live[r].doc.keys ==> h !in s.used
    case SaveStep(r) => r in s.live
    case Finish(r) => r in s.live
  }

  function Next(s: System, step: Step): System
    requires Enabled(s, step)
  {
    match step
    case Load(r) => s.(live := s.live[r := Request(s.stored, s.stored)])
    case Edit(r, doc) => s.(live := s.live[r := s.live[r].(doc := doc)], used := s.used + doc.keys.Keys)
    case SaveStep(r) =>
      var request := s.live[r];
      var merged := Merge(s.stored, request.base, request.doc);
      s.(stored := merged, live := s.live[r := Request(request.doc, request.doc)],
         revoked := s.revoked + (s.stored.keys.Keys - merged.keys.Keys))
    case Finish(r) => s.(live := s.live - {r})
  }

  ghost predicate Runs(s: System, steps: seq<Step>, end: System)
    decreases |steps|
  {
    if steps == [] then end == s
    else Enabled(s, steps[0]) && Runs(Next(s, steps[0]), steps[1..], end)
  }

  /** A key being added: in a live record, not in what that request loaded. */
  predicate IsNew(s: System, r: nat, h: string) {
    r in s.live && h in s.live[r].doc.keys && h !in s.live[r].base.keys
  }

  ghost predicate Invariant(s: System) {
    && (forall h :: h in s.revoked ==> h !in s.stored.keys)
    && (forall r, h :: IsNew(s, r, h) ==> h !in s.stored.keys && h !in s.revoked)
    && (forall r, h, q :: IsNew(s, r, h) && q in s.live && q != r ==>
          h !in s.live[q].doc.keys && h !in s.live[q].base.keys)
    && s.stored.keys.Keys <= s.used && s.revoked <= s.used
    && (forall r :: r in s.live ==> s.live[r].doc.keys.Keys <= s.used && s.live[r].base.keys.Keys <= s.used)
  }

  lemma MergedKeys(stored: View, base: View, doc: View, h: string)
    ensures h in Merge(stored, base, doc).keys ==>
              (h in stored.keys && (h !in base.keys || h in doc.keys)) || (h in doc.keys && h !in base.keys)
  {
    assert Lookup(Merge(stored, base, doc).keys, h) ==
           MergeKey(Lookup(stored.keys, h), Lookup(base.keys, h), Lookup(doc.keys, h));
  }

  lemma EditKeepsInvariant(s: System, r: nat, doc: View)
    requires Invariant(s) && Enabled(s, Edit(r, doc))
    ensures Invariant(Next(s, Edit(r, doc)))
  {
    var after := Next(s, Edit(r, doc));
    assert forall q, h :: IsNew(after, q, h) ==> IsNew(s, q, h) || (q == r && h !in s.used);
  }

  /** Any save that writes only keys stored or new to its request. */
  lemma SavedKeepsInvariant(s: System, r: nat, merged: View, after: System)
    requires Invariant(s) && r in s.live
    requires forall h <- merged.keys :: h in s.stored.keys || IsNew(s, r, h)
    requires after == s.(stored := merged, live := s.live[r := Request(s.live[r].doc, s.live[r].doc)],
                         revoked := s.revoked + (s.stored.keys.Keys - merged.keys.Keys))
    ensures Invariant(after)
  {
    assert forall q, h :: IsNew(after, q, h) ==> q != r && IsNew(s, q, h);
  }

  lemma SaveKeepsInvariant(s: System, r: nat)
    requires Invariant(s) && Enabled(s, SaveStep(r))
    ensures Invariant(Next(s, SaveStep(r)))
  {
    var merged := Merge(s.stored, s.live[r].base, s.live[r].doc);
    forall h | h in merged.keys ensures h in s.stored.keys || IsNew(s, r, h) {
      MergedKeys(s.stored, s.live[r].base, s.live[r].doc, h);
    }
    SavedKeepsInvariant(s, r, merged, Next(s, SaveStep(r)));
  }

  lemma StepKeepsInvariant(s: System, step: Step)
    requires Invariant(s) && Enabled(s, step)
    ensures Invariant(Next(s, step))
    ensures s.revoked <= Next(s, step).revoked
  {
    match step
    case Edit(r, doc) => EditKeepsInvariant(s, r, doc);
    case SaveStep(r) => SaveKeepsInvariant(s, r);
    case Load(r) => assert forall q, h :: IsNew(Next(s, step), q, h) ==> IsNew(s, q, h);
    case Finish(r) => assert forall q, h :: IsNew(Next(s, step), q, h) ==> IsNew(s, q, h);
  }

  lemma {:induction false} RunKeepsInvariant(s: System, steps: seq<Step>, end: System)
    requires Invariant(s) && Runs(s, steps, end)
    ensures Invariant(end) && s.revoked <= end.revoked
    decreases |steps|
  {
    if steps != [] {
      StepKeepsInvariant(s, steps[0]);
      RunKeepsInvariant(Next(s, steps[0]), steps[1..], end);
    }
  }

  /** Before any request is live. */
  function Start(stored: View): System {
    System(stored, map[], stored.keys.Keys, {})
  }

  /** A key a save has revoked is in the tables of no later state, over every interleaving of
    * requests from any tables, however stale the records they save. */
  lemma RevokedStaysRevoked(stored: View, steps: seq<Step>, mid: System, more: seq<Step>, end: System, h: string)
    requires Runs(Start(stored), steps, mid) && Runs(mid, more, end) && h in mid.revoked
    ensures h !in mid.stored.keys && h !in end.stored.keys && h in end.revoked
  {
    RunKeepsInvariant(Start(stored), steps, mid);
    RunKeepsInvariant(mid, more, end);
  }

  // ---- runs in which a change is lost ----

  /** Request 1 loads, request 2 loads and saves `other`, and request 1 saves `mine`. */
  function StaleSave(other: View, mine: View): seq<Step> {
    [Load(1), Load(2), Edit(2, other), SaveStep(2), Edit(1, mine), SaveStep(1)]
  }

  lemma StaleSaveRuns(stored: View, other: View, mine: View) returns (end: System)
    requires other.keys.Keys <= stored.keys.Keys && mine.keys.Keys <= stored.keys.Keys
    ensures Runs(Start(stored), StaleSave(other, mine), end)
    ensures end.stored == Merge(Merge(stored, stored, other), stored, mine)
  {
    var steps := StaleSave(other, mine);
    var s1 := Next(Start(stored), steps[0]);
    var s2 := Next(s1, steps[1]);
    var s3 := Next(s2, steps[2]);
    var s4 := Next(s3, steps[3]);
    var s5 := Next(s4, steps[4]);
    end := Next(s5, steps[5]);
    assert Runs(end, [], end);
    assert Runs(s5, [steps[5]], end);
    assert steps[4..][1..] == [steps[5]] && Runs(s4, steps[4..], end);
    assert steps[3..][1..] == steps[4..] && Runs(s3, steps[3..], end);
    assert steps[2..][1..] == steps[3..] && Runs(s2, steps[2..], end);
    assert steps[1..][1..] == steps[2..] && Runs(s1, steps[1..], end);
  }

  /** A session call that loaded before the key's phone moved, and saves its use of the key after,
    * moves the key back: the install of before is asked again. */
  lemma StaleUseUndoesMove(stored: View, h: string, to: string, now: int) returns (end: System)
    requires h in stored.keys && stored.keys[h].deviceId != to && stored.keys[h].lastUsedAt != Some(now)
    ensures var moved := stored.(keys := stored.keys[h := stored.keys[h].(deviceId := to)]);
            var used := stored.(keys := stored.keys[h := stored.keys[h].(lastUsedAt := Some(now))]);
            && Runs(Start(stored), StaleSave(moved, used), end)
            && Lookup(Merge(stored, stored, moved).keys, h) == Some(moved.keys[h])
            && Lookup(end.stored.keys, h) == Some(used.keys[h])
  {
    var moved := stored.(keys := stored.keys[h := stored.keys[h].(deviceId := to)]);
    var used := stored.(keys := stored.keys[h := stored.keys[h].(lastUsedAt := Some(now))]);
    end := StaleSaveRuns(stored, moved, used);
    var first := Merge(stored, stored, moved);
    assert Lookup(first.keys, h) == MergeKey(Lookup(stored.keys, h), Lookup(stored.keys, h), Lookup(moved.keys, h));
    assert Lookup(end.stored.keys, h) == MergeKey(Lookup(first.keys, h), Lookup(stored.keys, h), Lookup(used.keys, h));
  }

  /** A phone's row after a repeated `link` that presents the phone's own secret: the secret stays,
    * and the row is seen now, under the label sent along or the one it had. */
  function LinkedAgain(phone: Phone, title: Option<string>, now: int): Phone {
    phone.(title := if title.Some? then title else phone.title, seenAt := now)
  }

  /** `link` waits on the network between its load and its save. Repeated with the phone's own
    * secret while another request links the phone with a new one, or unlinks it, it brings back
    * the secret of before, or links the phone again. */
  lemma RepeatedLinkUndoesLink(stored: View, d: string, other: View, title: Option<string>, now: int)
    returns (end: System)
    requires d in stored.phones && stored.phones[d].seenAt != now
    requires other.keys == stored.keys && Lookup(other.phones, d) != Some(stored.phones[d])
    ensures var mine := stored.(phones := stored.phones[d := LinkedAgain(stored.phones[d], title, now)]);
            && Runs(Start(stored), StaleSave(other, mine), end)
            && Lookup(Merge(stored, stored, other).phones, d) == Lookup(other.phones, d)
            && Lookup(end.stored.phones, d) == Some(mine.phones[d])
            && mine.phones[d].secretHash == stored.phones[d].secretHash
  {
    var mine := stored.(phones := stored.phones[d := LinkedAgain(stored.phones[d], title, now)]);
    end := StaleSaveRuns(stored, other, mine);
    var first := Merge(stored, stored, other);
    assert Lookup(first.phones, d) ==
           MergePhone(Lookup(stored.phones, d), Lookup(stored.phones, d), Lookup(other.phones, d));
    assert Lookup(end.stored.phones, d) ==
           MergePhone(Lookup(first.phones, d), Lookup(stored.phones, d), Lookup(mine.phones, d));
  }

  /** `phoneMoved` on the tables. */
  function MovedKeys(keys: map<string, Key>, from: string, to: string): map<string, Key> {
    map h | h in keys :: if keys[h].deviceId == from then keys[h].(deviceId := to) else keys[h]
  }

  /** What `fcm-token` makes of the tables when the phone on install `d` moves to `e`. */
  function MovedPhone(stored: View, d: string, e: string): View
    requires d in stored.phones
  {
    stored.(keys := MovedKeys(stored.keys, d, e),
            phones := (stored.phones - {d})[e := stored.phones[d].(deviceId := e)])
  }

  lemma MovedOverLink(stored: View, d: string, e: string, linked: Phone, p: string)
    requires d in stored.phones && e !in stored.phones && d != e
    ensures var other := stored.(phones := stored.phones[d := linked]);
            var first := Merge(stored, stored, other);
            && Lookup(first.phones, p) == Lookup(other.phones, p)
            && Lookup(Merge(first, stored, MovedPhone(stored, d, e)).phones, p) ==
               if p == d then None
               else if p == e then Some(stored.phones[d].(deviceId := e))
               else Lookup(stored.phones, p)
  {
    var other, mine := stored.(phones := stored.phones[d := linked]), MovedPhone(stored, d, e);
    var first := Merge(stored, stored, other);
    assert Lookup(first.phones, p) ==
           MergePhone(Lookup(stored.phones, p), Lookup(stored.phones, p), Lookup(other.phones, p));
    assert Lookup(Merge(first, stored, mine).phones, p) ==
           MergePhone(Lookup(first.phones, p), Lookup(stored.phones, p), Lookup(mine.phones, p));
  }

  /** `fcm-token` waits too. A phone linked with a new secret while it moves to another install is
    * left on that install with the secret of before, and the new secret is nobody's. */
  lemma MoveDropsNewSecret(stored: View, d: string, e: string, linked: Phone) returns (end: System)
    requires d in stored.phones && e !in stored.phones && d != e
    requires linked.deviceId == d && linked.secretHash != stored.phones[d].secretHash
    ensures var other := stored.(phones := stored.phones[d := linked]);
            && Runs(Start(stored), StaleSave(other, MovedPhone(stored, d, e)), end)
            && Lookup(Merge(stored, stored, other).phones, d) == Some(linked)
    ensures d !in end.stored.phones
    ensures Lookup(end.stored.phones, e) == Some(stored.phones[d].(deviceId := e))
    ensures (forall p <- stored.phones :: stored.phones[p].secretHash != linked.secretHash) ==>
              forall p <- end.stored.phones :: end.stored.phones[p].secretHash != linked.secretHash
  {
    end := StaleSaveRuns(stored, stored.(phones := stored.phones[d := linked]), MovedPhone(stored, d, e));
    MovedOverLink(stored, d, e, linked, d);
    MovedOverLink(stored, d, e, linked, e);
    forall p | p in end.stored.phones
      ensures p == e || (p in stored.phones && end.stored.phones[p] == stored.phones[p])
    {
      MovedOverLink(stored, d, e, linked, p);
    }
  }
}
