/** Saving an account record onto what its object's tables hold by then. Handlers wait on the
  * network between loading and saving, so a save merges the record as loaded (its base), the
  * record as changed, and the tables as they are now. */
module AccountStore {
  import opened Options
  import opened Lists
  import opened AccountRecords

  /** The `account` table's columns besides `id`. */
  datatype Column =
    | AlwaysUseVault | PhoneWaitSecs | VaultTtlSecs | SemesterId | MailboxId | SealedVault | VaultSavedAt | VaultGmail
    | SealedSession | SessionSavedAt | SessionSource | CredentialsRejectedAt | CreatedAt | UpdatedAt
    | WindowStart | WindowHits

  datatype Value = Null | Int(n: int) | Text(s: string)

  type Columns = row: map<Column, Value> | forall c: Column :: c in row witness map c: Column | true :: Null

  function Flag(b: bool): Value {
    Int(if b then 1 else 0)
  }

  function IntOrNull(n: Option<int>): Value {
    match n
    case Some(i) => Int(i)
    case None => Null
  }

  function TextOrNull(s: Option<string>): Value {
    match s
    case Some(t) => Text(t)
    case None => Null
  }

  /** What a record writes in a column. */
  function ColumnValue(doc: Account, column: Column): Value {
    match column
    case AlwaysUseVault => Flag(doc.settings.alwaysUseVault)
    case PhoneWaitSecs => Int(doc.settings.phoneWaitSecs)
    case VaultTtlSecs => IntOrNull(doc.settings.vaultTtlSecs)
    case SemesterId => TextOrNull(doc.semesterId)
    case MailboxId => TextOrNull(doc.mailboxId)
    case SealedVault => TextOrNull(doc.sealedVault)
    case VaultSavedAt => IntOrNull(doc.vaultSavedAt)
    case VaultGmail => Flag(doc.vaultGmail)
    case SealedSession => TextOrNull(doc.sealedSession)
    case SessionSavedAt => IntOrNull(doc.sessionSavedAt)
    case SessionSource => TextOrNull(doc.sessionSource)
    case CredentialsRejectedAt => IntOrNull(doc.credentialsRejectedAt)
    case CreatedAt => Int(doc.createdAt)
    case UpdatedAt => Int(doc.updatedAt)
    case WindowStart => Int(doc.windowStart)
    case WindowHits => Int(doc.windowHits)
  }

  function AccountColumns(doc: Account): Columns {
    map c: Column | true :: ColumnValue(doc, c)
  }

  // ---- reading a row back ----

  /** A text column, or null. */
  function AsText(v: Value): Option<string> {
    if v.Text? then Some(v.s) else None
  }

  /** An integer column; a negative one reads as null. */
  function AsInt(v: Value): Option<int> {
    if v.Int? && v.n >= 0 then Some(v.n) else None
  }

  predicate AsFlag(v: Value) {
    v.Int? && v.n > 0
  }

  /** The record of a row and its keys and phones; none when a required number is missing. */
  function AccountFrom(id: string, row: Columns, keys: seq<Key>, phones: seq<Phone>): Option<Account> {
    var wait, created, updated := AsInt(row[PhoneWaitSecs]), AsInt(row[CreatedAt]), AsInt(row[UpdatedAt]);
    if wait.None? || created.None? || updated.None? then None
    else
      Some(Account(id, Settings(AsFlag(row[AlwaysUseVault]), wait.value, AsInt(row[VaultTtlSecs])),
                   AsText(row[SemesterId]), AsText(row[MailboxId]), AsText(row[SealedVault]), AsInt(row[VaultSavedAt]),
                   AsFlag(row[VaultGmail]), AsText(row[SealedSession]), AsInt(row[SessionSavedAt]),
                   AsText(row[SessionSource]), AsInt(row[CredentialsRejectedAt]), created.value, updated.value,
                   OrZero(AsInt(row[WindowStart])), OrZero(AsInt(row[WindowHits])), keys, phones))
  }

  predicate NotNegative(n: Option<int>) {
    n.Some? ==> 0 <= n.value
  }

  /** Every number is one a clock or a counter gives. */
  predicate Storable(doc: Account) {
    && 0 <= doc.settings.phoneWaitSecs && NotNegative(doc.settings.vaultTtlSecs) && NotNegative(doc.vaultSavedAt)
    && NotNegative(doc.sessionSavedAt) && NotNegative(doc.credentialsRejectedAt)
    && 0 <= doc.createdAt && 0 <= doc.updatedAt && 0 <= doc.windowStart && 0 <= doc.windowHits
  }

  /** A row reads back as the record that wrote it exactly when no number is negative. */
  lemma RowReadsBack(doc: Account)
    ensures AccountFrom(doc.id, AccountColumns(doc), doc.keys, doc.phones) == Some(doc) <==> Storable(doc)
  {
  }

  // ---- the three-way merge ----

  /** The tables' contents, or a record seen as tables. */
  datatype View = View(columns: Columns, keys: map<string, Key>, phones: map<string, Phone>)

  function ViewOf(doc: Account): View {
    View(AccountColumns(doc), Table(doc.keys, KeyHash), Table(doc.phones, PhoneDevice))
  }

  function MergeColumn(stored: Value, base: Value, doc: Value): Value {
    if doc != base then doc else stored
  }

  /** The fields of a key that may change after it was made. */
  predicate SameKey(a: Key, b: Key) {
    a.title == b.title && a.lastUsedAt == b.lastUsedAt && a.deviceId == b.deviceId && a.outings == b.outings
  }

  function UpdatedKey(stored: Key, doc: Key): Key {
    stored.(title := doc.title, lastUsedAt := doc.lastUsedAt, deviceId := doc.deviceId, outings := doc.outings)
  }

  function MergeKey(stored: Option<Key>, base: Option<Key>, doc: Option<Key>): Option<Key> {
    match (base, doc)
    case (None, None) => stored
    case (Some(_), None) => None
    case (None, Some(key)) => Some(key)
    case (Some(was), Some(key)) =>
      if SameKey(was, key) || stored.None? then stored else Some(UpdatedKey(stored.value, key))
  }

  function MergePhone(stored: Option<Phone>, base: Option<Phone>, doc: Option<Phone>): Option<Phone> {
    match (base, doc)
    case (Some(_), None) => None
    case (_, Some(phone)) => if base == Some(phone) then stored else Some(phone)
    case (None, None) => stored
  }

  /** The tables after a save, column by column and row by row. */
  ghost predicate IsMerged(merged: View, stored: View, base: View, doc: View) {
    && (forall c :: merged.columns[c] == MergeColumn(stored.columns[c], base.columns[c], doc.columns[c]))
    && (forall h :: Lookup(merged.keys, h) ==
          MergeKey(Lookup(stored.keys, h), Lookup(base.keys, h), Lookup(doc.keys, h)))
    && (forall d :: Lookup(merged.phones, d) ==
          MergePhone(Lookup(stored.phones, d), Lookup(base.phones, d), Lookup(doc.phones, d)))
  }

  class AccountDb {
    var row: Columns
    var keys: map<string, Key>
    var phones: map<string, Phone>

    function Tables(): View
      reads this
    {
      View(row, keys, phones)
    }

    /** Merges `doc`, edited from `base`, into the tables. */
    method WriteChanges(base: Account, doc: Account)
      requires Distinct(base.keys, KeyHash) && Distinct(doc.keys, KeyHash)
      requires Distinct(base.phones, PhoneDevice) && Distinct(doc.phones, PhoneDevice)
      modifies this
      ensures IsMerged(Tables(), old(Tables()), ViewOf(base), ViewOf(doc))
    {
      var before, after := AccountColumns(base), AccountColumns(doc);
      row := map c: Column | true :: if after[c] != before[c] then after[c] else row[c];
      SaveKeys(base.keys, doc.keys);
      SavePhones(base.phones, doc.phones);
    }

    /** Writes the whole record over the tables. */
    method WriteAccount(doc: Account)
      requires Distinct(doc.keys, KeyHash) && Distinct(doc.phones, PhoneDevice)
      modifies this
      ensures Tables() == ViewOf(doc)
    {
      row := AccountColumns(doc);
      keys, phones := map[], map[];
      WriteKeys([], doc.keys);
      WritePhones([], doc.phones);
      SameTable(keys, Table(doc.keys, KeyHash));
      SameTable(phones, Table(doc.phones, PhoneDevice));
    }

    /** `saveAccount`: a merge for a record that was loaded, the whole record otherwise. */
    method SaveAccount(record: AccountRecord)
      requires record.Valid()
      requires record.loaded.Some? ==>
                 Distinct(record.loaded.value.keys, KeyHash) && Distinct(record.loaded.value.phones, PhoneDevice)
      modifies this, record`loaded
      ensures record.loaded == Some(record.Copy())
      ensures old(record.loaded).Some? ==>
                IsMerged(Tables(), old(Tables()), ViewOf(old(record.loaded).value), ViewOf(record.Copy()))
      ensures old(record.loaded).None? ==> Tables() == ViewOf(record.Copy())
    {
      var doc := record.Copy();
      if record.loaded.Some? {
        WriteChanges(record.loaded.value, doc);
      } else {
        WriteAccount(doc);
      }
      record.MarkLoaded();
    }

    method SaveKeys(base: seq<Key>, doc: seq<Key>)
      requires Distinct(doc, KeyHash)
      modifies this`keys
      ensures forall h :: Lookup(keys, h) ==
                MergeKey(Lookup(old(keys), h), Find(base, KeyHash, h), Find(doc, KeyHash, h))
    {
      DeleteKeys(base, doc);
      WriteKeys(base, doc);
    }

    method SavePhones(base: seq<Phone>, doc: seq<Phone>)
      requires Distinct(base, PhoneDevice) && Distinct(doc, PhoneDevice)
      modifies this`phones
      ensures forall d ::
                Lookup(phones, d) ==
                  MergePhone(Lookup(old(phones), d), Find(base, PhoneDevice, d), Find(doc, PhoneDevice, d))
    {
      DeletePhones(base, doc);
      WritePhones(base, doc);
    }

    method DeleteKeys(base: seq<Key>, doc: seq<Key>)
      modifies this`keys
      ensures forall h :: Lookup(keys, h) ==
                if Has(base, KeyHash, h) && !Has(doc, KeyHash, h) then None else Lookup(old(keys), h)
    {
      for i := 0 to |base|
        invariant forall h :: Lookup(keys, h) ==
                    if Has(base[..i], KeyHash, h) && !Has(doc, KeyHash, h) then None else Lookup(old(keys), h)
      {
        HasOneMore(base, KeyHash, i);
        if Find(doc, KeyHash, base[i].hash).None? {
          keys := keys - {base[i].hash};
        }
      }
      assert base[..|base|] == base;
    }

    method WriteKeys(base: seq<Key>, doc: seq<Key>)
      requires Distinct(doc, KeyHash)
      modifies this`keys
      ensures forall h :: Lookup(keys, h) ==
                if Has(doc, KeyHash, h)
                then MergeKey(Lookup(old(keys), h), Find(base, KeyHash, h), Find(doc, KeyHash, h))
                else Lookup(old(keys), h)
    {
      for i := 0 to |doc|
        invariant forall h :: Lookup(keys, h) ==
                    if Has(doc[..i], KeyHash, h)
                    then MergeKey(Lookup(old(keys), h), Find(base, KeyHash, h), Find(doc, KeyHash, h))
                    else Lookup(old(keys), h)
      {
        HasOneMore(doc, KeyHash, i);
        FindAt(doc, KeyHash, i);
        var key := doc[i];
        var was := Find(base, KeyHash, key.hash);
        if was.None? {
          keys := keys[key.hash := key];
        } else if !SameKey(was.value, key) {
          // An update finds no row where another request has deleted it.
          if key.hash in keys {
            keys := keys[key.hash := UpdatedKey(keys[key.hash], key)];
          }
        }
      }
      assert doc[..|doc|] == doc;
    }

    method DeletePhones(base: seq<Phone>, doc: seq<Phone>)
      modifies this`phones
      ensures forall d :: Lookup(phones, d) ==
                if Has(base, PhoneDevice, d) && !Has(doc, PhoneDevice, d) then None else Lookup(old(phones), d)
    {
      for i := 0 to |base|
        invariant forall d :: Lookup(phones, d) ==
                    if Has(base[..i], PhoneDevice, d) && !Has(doc, PhoneDevice, d) then None else Lookup(old(phones), d)
      {
        HasOneMore(base, PhoneDevice, i);
        if Find(doc, PhoneDevice, base[i].deviceId).None? {
          phones := phones - {base[i].deviceId};
        }
      }
      assert base[..|base|] == base;
    }

    method WritePhones(base: seq<Phone>, doc: seq<Phone>)
      requires Distinct(base, PhoneDevice) && Distinct(doc, PhoneDevice)
      modifies this`phones
      ensures forall d :: Lookup(phones, d) ==
                if Has(doc, PhoneDevice, d)
                then MergePhone(Lookup(old(phones), d), Find(base, PhoneDevice, d), Find(doc, PhoneDevice, d))
                else Lookup(old(phones), d)
    {
      for i := 0 to |doc|
        invariant forall d :: Lookup(phones, d) ==
                    if Has(doc[..i], PhoneDevice, d)
                    then MergePhone(Lookup(old(phones), d), Find(base, PhoneDevice, d), Find(doc, PhoneDevice, d))
                    else Lookup(old(phones), d)
      {
        HasOneMore(doc, PhoneDevice, i);
        FindAt(doc, PhoneDevice, i);
        InBaseIsFound(base, doc[i]);
        if doc[i] !in base {
          phones := phones[doc[i].deviceId := doc[i]];
        }
      }
      assert doc[..|doc|] == doc;
    }
  }

  lemma InBaseIsFound(base: seq<Phone>, phone: Phone)
    requires Distinct(base, PhoneDevice)
    ensures phone in base <==> Find(base, PhoneDevice, phone.deviceId) == Some(phone)
  {
    if phone in base {
      var i :| 0 <= i < |base| && base[i] == phone;
      FindAt(base, PhoneDevice, i);
    }
  }
}
