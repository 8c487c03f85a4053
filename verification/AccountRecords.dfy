/** What an account keeps, as its handlers read and change it. */
module AccountRecords {
  import opened Options
  import opened Lists
  import opened Numbers
  import opened Text

  const SESSION_CACHE_SECS := 7 * 24 * 3600
  const ACCOUNT_RATE_PER_MINUTE := 60
  const MAX_PHONES := 5
  const MAX_KEYS_PER_ACCOUNT := 10
  const TOUCH_EVERY_SECS := 60

  datatype Settings = Settings(alwaysUseVault: bool, phoneWaitSecs: int, vaultTtlSecs: Option<int>)

  datatype Key = Key(hash: string, title: string, createdAt: int, lastUsedAt: Option<int>, deviceId: string,
                     outings: bool)

  datatype Phone = Phone(deviceId: string, secretHash: string, title: Option<string>, addedAt: int, seenAt: int)

  function KeyHash(key: Key): string {
    key.hash
  }

  function PhoneDevice(phone: Phone): string {
    phone.deviceId
  }

  /** The value of an account record at one moment: what `clone` copies. */
  datatype Account = Account(
    id: string,
    settings: Settings,
    semesterId: Option<string>,
    mailboxId: Option<string>,
    sealedVault: Option<string>,
    vaultSavedAt: Option<int>,
    vaultGmail: bool,
    sealedSession: Option<string>,
    sessionSavedAt: Option<int>,
    sessionSource: Option<string>,
    credentialsRejectedAt: Option<int>,
    createdAt: int,
    updatedAt: int,
    windowStart: int,
    windowHits: int,
    keys: seq<Key>,
    phones: seq<Phone>)
  {
    /** The vault, until its chosen lifetime is over. */
    function UsableVault(now: int): Option<string> {
      if settings.vaultTtlSecs.Some? && vaultSavedAt.Some? && now >= vaultSavedAt.value + settings.vaultTtlSecs.value
      then None else sealedVault
    }

    function CachedSession(now: int): Option<string> {
      var savedAt := if sessionSavedAt.Some? then sessionSavedAt.value else 0;
      if now < savedAt + SESSION_CACHE_SECS then sealedSession else None
    }

    function SavedSession(sealed: string, now: int, source: string): Account {
      this.(sealedSession := Some(sealed), sessionSavedAt := Some(now), sessionSource := Some(source))
    }

    function ClearedSession(): Account {
      this.(sealedSession := None, sessionSavedAt := None, sessionSource := None)
    }

    function SavedVault(sealed: string, now: int, gmail: bool): Account {
      this.(sealedVault := Some(sealed), vaultSavedAt := Some(now), vaultGmail := gmail, credentialsRejectedAt := None)
    }

    function DroppedGmail(sealed: string): Account {
      if sealedVault.None? then this else this.(sealedVault := Some(sealed), vaultGmail := false)
    }

    function ClearedVault(): Account {
      this.(sealedVault := None, vaultSavedAt := None, vaultGmail := false)
    }

    function RejectedCredentials(now: int): Account {
      this.ClearedVault().(credentialsRejectedAt := Some(now))
    }

    /** A session call counted, and the key it came by used. */
    function CountedCall(now: int): Account {
      var window := Counted(Window(windowStart, windowHits), now);
      this.(windowStart := window.start, windowHits := window.hits)
    }

    function UsedKey(keyHash: string, now: int): Account {
      this.(keys := Touched(keys, keyHash, now))
    }

    /** Who is asked when this key wants a session. */
    function PhonesForKey(keyHash: string): seq<string> {
      match Find(keys, KeyHash, keyHash)
      case None => []
      case Some(key) => DevicesOf(phones, key.deviceId)
    }
  }

  function DevicesOf(phones: seq<Phone>, owner: string): seq<string> {
    if phones == [] then []
    else (if phones[0].deviceId == owner then [owner] else []) + DevicesOf(phones[1..], owner)
  }

  predicate TouchDue(key: Key, now: int) {
    key.lastUsedAt.None? || now >= key.lastUsedAt.value + TOUCH_EVERY_SECS
  }

  /** The first key with this hash used now, when that is due to be written. */
  function Touched(keys: seq<Key>, keyHash: string, now: int): (touched: seq<Key>)
    ensures |touched| == |keys|
    ensures Distinct(keys, KeyHash) ==>
              forall i :: 0 <= i < |keys| ==>
                touched[i] == if keys[i].hash == keyHash && TouchDue(keys[i], now)
                              then keys[i].(lastUsedAt := Some(now)) else keys[i]
  {
    if keys == [] then []
    else if keys[0].hash == keyHash then
      [if TouchDue(keys[0], now) then keys[0].(lastUsedAt := Some(now)) else keys[0]] + keys[1..]
    else [keys[0]] + Touched(keys[1..], keyHash, now)
  }

  /** A key's public name: the start of its hash. */
  function KeyId(hash: string): string {
    if |hash| < 8 then hash else hash[..8]
  }

  function FirstWithId(keys: seq<Key>, id: string): (at: Option<nat>)
    ensures at.Some? ==> at.value < |keys| && KeyId(keys[at.value].hash) == id
                         && forall i :: 0 <= i < at.value ==> KeyId(keys[i].hash) != id
    ensures at.None? ==> forall i :: 0 <= i < |keys| ==> KeyId(keys[i].hash) != id
  {
    if keys == [] then None
    else if KeyId(keys[0].hash) == id then Some(0)
    else match FirstWithId(keys[1..], id)
      case None => None
      case Some(i) => Some(i + 1)
  }

  // ---- phones ----

  /** When it was last heard of. */
  function PhoneRecency(phone: Phone): (at: int)
    ensures phone.seenAt <= at && phone.addedAt <= at && (at == phone.seenAt || at == phone.addedAt)
  {
    Max(phone.seenAt, phone.addedAt)
  }

  /** The phones left after some were dropped one at a time, each the first heard of longest ago
    * then. */
  ghost predicate EvictedTo(phones: seq<Phone>, left: seq<Phone>)
    decreases |phones|
  {
    phones == left
    || exists at: nat :: IsFirstLeast(phones, PhoneRecency, at) && EvictedTo(Removed(phones, at), left)
  }

  /** Every phone dropped was heard of no later than every one that stayed. */
  lemma {:induction false} EvictedAreStalest(phones: seq<Phone>, left: seq<Phone>)
    requires EvictedTo(phones, left)
    ensures forall p <- left :: p in phones
    ensures forall gone <- phones, kept <- left :: gone in left || PhoneRecency(gone) <= PhoneRecency(kept)
    ensures |left| <= |phones|
    decreases |phones|
  {
    if phones != left {
      var at: nat :| IsFirstLeast(phones, PhoneRecency, at) && EvictedTo(Removed(phones, at), left);
      RemovedItems(phones, at);
      EvictedAreStalest(Removed(phones, at), left);
    }
  }

  function Without(phones: seq<Phone>, deviceId: string): (left: seq<Phone>)
    ensures forall p <- left :: p in phones && p.deviceId != deviceId
    ensures forall p <- phones :: p.deviceId == deviceId || p in left
    ensures InOrder(left, phones) && |left| <= |phones|
  {
    if phones == [] then []
    else
      var rest := Without(phones[1..], deviceId);
      if phones[0].deviceId == deviceId then rest else [phones[0]] + rest
  }

  lemma {:induction false} WithoutKeepsDistinct(phones: seq<Phone>, deviceId: string)
    requires Distinct(phones, PhoneDevice)
    ensures Distinct(Without(phones, deviceId), PhoneDevice)
  {
    if phones != [] {
      var rest := Without(phones[1..], deviceId);
      WithoutKeepsDistinct(phones[1..], deviceId);
      forall p | p in rest ensures p.deviceId != phones[0].deviceId {
        assert p in phones[1..];
      }
    }
  }

  // ---- the record ----

  class AccountRecord {
    const id: string
    var settings: Settings
    var semesterId: Option<string>
    var mailboxId: Option<string>
    var sealedVault: Option<string>
    var vaultSavedAt: Option<int>
    var vaultGmail: bool
    var sealedSession: Option<string>
    var sessionSavedAt: Option<int>
    var sessionSource: Option<string>
    var credentialsRejectedAt: Option<int>
    var createdAt: int
    var updatedAt: int
    var windowStart: int
    var windowHits: int
    var keys: seq<Key>
    var phones: seq<Phone>
    /** What the tables held when this was read or last saved. */
    var loaded: Option<Account>

    constructor (id: string, now: int)
      ensures this.id == id && loaded == None
      ensures Copy() == Account(id, Settings(true, 20, None), None, None, None, None, false, None, None, None, None,
                                now, now, 0, 0, [], [])
    {
      this.id := id;
      settings := Settings(true, 20, None);
      semesterId, mailboxId, sealedVault, vaultSavedAt, vaultGmail := None, None, None, None, false;
      sealedSession, sessionSavedAt, sessionSource, credentialsRejectedAt := None, None, None, None;
      createdAt, updatedAt := now, now;
      windowStart, windowHits := 0, 0;
      keys, phones := [], [];
      loaded := None;
    }

    /** `clone`: the record's value, without `loaded`. */
    function Copy(): Account
      reads this
    {
      Account(id, settings, semesterId, mailboxId, sealedVault, vaultSavedAt, vaultGmail, sealedSession, sessionSavedAt,
              sessionSource, credentialsRejectedAt, createdAt, updatedAt, windowStart, windowHits, keys, phones)
    }

    /** Ids are unique, as the tables' primary keys demand. */
    predicate Valid()
      reads this
    {
      Distinct(keys, KeyHash) && Distinct(phones, PhoneDevice)
    }

    method MarkLoaded()
      modifies this`loaded
      ensures loaded == Some(Copy())
    {
      loaded := Some(Copy());
    }

    /** One more call in the window, or the first of a new one; whether it is within the rate. */
    method Allow(now: int) returns (allowed: bool)
      modifies this`windowStart, this`windowHits
      ensures Window(windowStart, windowHits) == Counted(Window(old(windowStart), old(windowHits)), now)
      ensures allowed == Allowed(Window(old(windowStart), old(windowHits)), now)
    {
      if now >= windowStart + 60 {
        windowStart, windowHits := now, 1;
        return true;
      }
      windowHits := windowHits + 1;
      return windowHits - 1 < ACCOUNT_RATE_PER_MINUTE;
    }

    /** Puts `phone` last, in place of its install's entry; others make room, stalest first. */
    method AddPhone(phone: Phone)
      requires Valid()
      modifies this`phones
      ensures Valid()
      ensures phones != [] && phones[|phones| - 1] == phone
      ensures EvictedTo(Without(old(phones), phone.deviceId), phones[..|phones| - 1])
      ensures |phones| == Min(|Without(old(phones), phone.deviceId)|, MAX_PHONES - 1) + 1
      ensures |phones| <= MAX_PHONES
      ensures |Without(old(phones), phone.deviceId)| < MAX_PHONES ==>
                phones == Without(old(phones), phone.deviceId) + [phone]
    {
      WithoutKeepsDistinct(phones, phone.deviceId);
      var left := Without(phones, phone.deviceId);
      ghost var before := left;
      left := DropStalest(left);
      phones := left + [phone];
      assert phones[..|phones| - 1] == left;
      EvictedAreStalest(before, left);
    }

    /** Sets the outing permission of the first key so named, white space around the name aside;
      * tells whether one was found. */
    method SetKeyOutings(id: string, outings: bool) returns (found: bool)
      requires Valid()
      modifies this`keys
      ensures Valid() && found == FirstWithId(old(keys), Trim(id, JsSpace)).Some?
      ensures found ==> var at := FirstWithId(old(keys), Trim(id, JsSpace)).value;
                        keys == old(keys)[at := old(keys)[at].(outings := outings)]
      ensures !found ==> keys == old(keys)
    {
      match FirstWithId(keys, Trim(id, JsSpace))
      case None => return false;
      case Some(at) =>
        keys := keys[at := keys[at].(outings := outings)];
        return true;
    }

    /** Takes out the first key so named, white space around the name aside, and gives its hash. */
    method RevokeKey(id: string) returns (hash: Option<string>)
      requires Valid()
      modifies this`keys
      ensures Valid()
      ensures var wanted := Trim(id, JsSpace);
              if wanted == [] || FirstWithId(old(keys), wanted).None? then hash == None && keys == old(keys)
              else var at := FirstWithId(old(keys), wanted).value;
                   && hash == Some(old(keys)[at].hash)
                   && keys == old(keys)[..at] + old(keys)[at + 1..]
                   && hash.value !in Ids(keys, KeyHash)
    {
      var wanted := Trim(id, JsSpace);
      if wanted == [] {
        return None;
      }
      match FirstWithId(keys, wanted)
      case None => return None;
      case Some(at) =>
        hash := Some(keys[at].hash);
        keys := keys[..at] + keys[at + 1..];
    }

    /** Sets a key's last use, at most once a minute; tells whether it did. */
    method TouchKey(keyHash: string, now: int) returns (due: bool)
      requires Valid()
      modifies this`keys
      ensures Valid() && keys == Touched(old(keys), keyHash, now)
      ensures due <==> exists key <- old(keys) :: key.hash == keyHash && TouchDue(key, now)
    {
      var at := 0;
      while at < |keys| && keys[at].hash != keyHash
        invariant 0 <= at <= |keys|
        invariant forall i :: 0 <= i < at ==> keys[i].hash != keyHash
      {
        at := at + 1;
      }
      if at == |keys| {
        assert Touched(keys, keyHash, now) == keys;
        return false;
      }
      var key := keys[at];
      assert forall other <- keys :: other.hash == keyHash ==> other == key;
      due := TouchDue(key, now);
      ghost var was := keys;
      if due {
        keys := keys[at := key.(lastUsedAt := Some(now))];
      }
      assert keys == Touched(was, keyHash, now);
    }

    /** Refuses an eleventh key. */
    method AddKey(key: Key) returns (added: bool)
      modifies this`keys
      ensures added == (|old(keys)| < MAX_KEYS_PER_ACCOUNT)
      ensures keys == if added then old(keys) + [key] else old(keys)
      ensures old(Valid()) ==> (Valid() <==> !(added && key.hash in Ids(old(keys), KeyHash)))
    {
      if |keys| >= MAX_KEYS_PER_ACCOUNT {
        return false;
      }
      if Valid() {
        DistinctOneMore(keys, KeyHash, key);
      }
      keys := keys + [key];
      return true;
    }

    /** Hands the keys of one install to another. */
    method PhoneMoved(from: string, to: string)
      requires Valid()
      modifies this`keys
      ensures Valid() && |keys| == |old(keys)|
      ensures forall i :: 0 <= i < |keys| ==>
                keys[i] == if old(keys)[i].deviceId == from then old(keys)[i].(deviceId := to) else old(keys)[i]
    {
      ghost var was := keys;
      for i := 0 to |keys|
        invariant |keys| == |was|
        invariant forall j :: 0 <= j < |keys| ==>
                    keys[j] == if j < i && was[j].deviceId == from then was[j].(deviceId := to) else was[j]
      {
        if keys[i].deviceId == from {
          keys := keys[i := keys[i].(deviceId := to)];
        }
      }
    }
  }

  lemma {:induction false} EvictOneMore(phones: seq<Phone>, left: seq<Phone>, at: nat)
    requires EvictedTo(phones, left) && IsFirstLeast(left, PhoneRecency, at)
    ensures EvictedTo(phones, Removed(left, at))
    decreases |phones|
  {
    var fewer := Removed(left, at);
    assert EvictedTo(fewer, fewer);
    if phones != left {
      var first: nat :| IsFirstLeast(phones, PhoneRecency, first) && EvictedTo(Removed(phones, first), left);
      EvictOneMore(Removed(phones, first), left, at);
    }
  }

  /** Where the first phone heard of longest ago stands. */
  method Stalest(phones: seq<Phone>) returns (oldest: nat)
    requires phones != []
    ensures IsFirstLeast(phones, PhoneRecency, oldest)
  {
    oldest := 0;
    for i := 0 to |phones|
      invariant oldest < |phones| && (oldest == 0 || oldest < i)
      invariant forall j :: 0 <= j < i ==> PhoneRecency(phones[oldest]) <= PhoneRecency(phones[j])
      invariant forall j :: 0 <= j < oldest ==> PhoneRecency(phones[oldest]) < PhoneRecency(phones[j])
    {
      if PhoneRecency(phones[i]) < PhoneRecency(phones[oldest]) {
        oldest := i;
      }
    }
  }

  /** Drops the stalest phones while there is no room for one more. */
  method DropStalest(phones: seq<Phone>) returns (left: seq<Phone>)
    requires Distinct(phones, PhoneDevice)
    ensures Distinct(left, PhoneDevice)
    ensures EvictedTo(phones, left)
    ensures |left| == Min(|phones|, MAX_PHONES - 1)
    ensures |phones| < MAX_PHONES ==> left == phones
  {
    left := phones;
    while |left| >= MAX_PHONES
      invariant Distinct(left, PhoneDevice)
      invariant EvictedTo(phones, left)
      invariant |phones| < MAX_PHONES ==> left == phones
      invariant |left| >= Min(|phones|, MAX_PHONES - 1)
    {
      var oldest := Stalest(left);
      EvictOneMore(phones, left, oldest);
      left := Removed(left, oldest);
    }
  }

  // ---- the rate limit ----

  datatype Window = Window(start: int, hits: int)

  function Counted(window: Window, now: int): Window {
    if now >= window.start + 60 then Window(now, 1) else window.(hits := window.hits + 1)
  }

  predicate Allowed(window: Window, now: int) {
    now >= window.start + 60 || window.hits < ACCOUNT_RATE_PER_MINUTE
  }
}
