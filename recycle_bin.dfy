/** The soft-delete framework and the recycle bin of the backend's `core`
    application: records of soft-deletable models, the tombstone
    (RecycleBinItem) written when a record is soft-deleted, the three
    recycle-bin views (list, restore, permanent delete) and the periodic
    sweep that purges expired tombstones.

    The database is one object: `records` holds the rows of every
    soft-deletable model, keyed by model and primary key, and `items` holds
    the RecycleBinItem table in primary-key order. The server clock is a
    parameter (`now`, in seconds), read once per operation. */
module RecycleBin {
  import opened Common
  import opened Strings
  import Dates
  import Seqs

  type Time = int

  const SecondsPerDay: int := 86400
  /** Tombstones expire 70 days after they are written unless a time is given. */
  const RetentionSeconds: int := 70 * SecondsPerDay

  /** A content type: the model a row belongs to. */
  type TypeTag = string

  const UuidBound: nat := 0x1_0000_0000_0000_0000_0000_0000_0000_0000
  type Uuid = u: nat | u < UuidBound

  /** A primary key is either a (positive-integer-field) integer or a UUID. */
  datatype Pk = IntPk(n: nat) | UuidPk(u: Uuid)

  datatype RecordKey = RecordKey(tag: TypeTag, pk: Pk)

  /** The JSON values a snapshot holds. */
  datatype Json = JNull | JBool(b: bool) | JInt(i: int) | JString(s: string)

  /** The value of one model field, by the kind the serialiser tells apart:
      a related row, an aware date-time (UTC, seconds and microseconds in
      the day), a date, a UUID, a two-place decimal (in hundredths), or
      anything already JSON-serialisable. */
  datatype FieldValue =
    | Related(target: Pk)
    | DateTimeValue(date: Dates.ValidDate, second: nat, micro: nat)
    | DateValue(day: Dates.ValidDate)
    | UuidValue(uuid: Uuid)
    | DecimalValue(hundredths: int)
    | PlainValue(json: Json)

  datatype Field = Field(name: string, value: FieldValue)

  /** A row of a soft-deletable model: its own fields plus the two
      bookkeeping columns of the soft-delete mixin. */
  datatype Record = Record(fields: seq<Field>, isDeleted: bool, deletedAt: Option<Time>)

  type Snapshot = map<string, Json>

  /** A RecycleBinItem row. */
  datatype Tombstone = Tombstone(
    id: nat,
    contentType: TypeTag,
    objectIdInt: Option<nat>,
    objectIdUuid: Option<Uuid>,
    originalData: Snapshot,
    deletedAt: Time,
    deletedBy: Option<UserId>,
    expiresAt: Time,
    restoredAt: Option<Time>,
    restoredBy: Option<UserId>)

  // ---------------------------------------------------------------- snapshot

  predicate IsBookkeeping(name: string) {
    name == "is_deleted" || name == "deleted_at"
  }

  /** All fields of a row in model order: its own fields, then the mixin's
      two columns. */
  function AllFields(r: Record): seq<Field> {
    r.fields + [
      Field("is_deleted", PlainValue(JBool(r.isDeleted))),
      Field("deleted_at", PlainValue(if r.deletedAt.Some? then JInt(r.deletedAt.value) else JNull))]
  }

  /** Lower-case hexadecimal digits of `n`, exactly `width` of them. */
  function HexDigits(n: nat, width: nat): (r: string)
    ensures |r| == width
  {
    if width == 0 then ""
    else
      var d := n % 16;
      HexDigits(n / 16, width - 1) + [if d < 10 then DigitChar(d) else ('a' as int + d - 10) as char]
  }

  /** The value of a lower-case hexadecimal digit. */
  function HexValue(c: char): nat {
    if '0' <= c <= '9' then c as int - '0' as int
    else if 'a' <= c <= 'f' then c as int - 'a' as int + 10
    else 0
  }

  /** `int(s, 16)` on a string of lower-case hexadecimal digits. */
  function ParseHex(s: string): nat {
    if s == [] then 0 else ParseHex(s[..|s| - 1]) * 16 + HexValue(s[|s| - 1])
  }

  function Pow16(k: nat): nat {
    if k == 0 then 1 else 16 * Pow16(k - 1)
  }

  lemma {:induction false} Pow16Add(a: nat, b: nat)
    ensures Pow16(a + b) == Pow16(a) * Pow16(b)
  {
    if a > 0 {
      Pow16Add(a - 1, b);
      assert Pow16(a + b) == 16 * Pow16(a - 1 + b);
    }
  }

  /** 32 hexadecimal digits are 128 bits. */
  lemma UuidDigits()
    ensures Pow16(32) == UuidBound
  {
    assert Pow16(2) == 256;
    Pow16Add(2, 2);
    Pow16Add(4, 4);
    Pow16Add(8, 8);
    Pow16Add(16, 16);
  }

  /** A number with at most `width` hexadecimal digits reads back from its
      digits. */
  lemma {:induction false} HexDigitsRoundTrip(n: nat, width: nat)
    requires n < Pow16(width)
    ensures ParseHex(HexDigits(n, width)) == n
  {
    if width > 0 {
      HexDigitsRoundTrip(n / 16, width - 1);
      var h := HexDigits(n, width);
      assert h[..|h| - 1] == HexDigits(n / 16, width - 1);
    }
  }

  /** `str(uuid)`: 32 hex digits grouped 8-4-4-4-12. */
  function UuidText(u: Uuid): (r: string)
    ensures |r| == 36 && r[8] == '-' && r[13] == '-' && r[18] == '-' && r[23] == '-'
    ensures r[..8] + r[9..13] + r[14..18] + r[19..23] + r[24..] == HexDigits(u, 32)
  {
    var h := HexDigits(u, 32);
    var r := h[..8] + "-" + h[8..12] + "-" + h[12..16] + "-" + h[16..20] + "-" + h[20..];
    assert r[..8] == h[..8] && r[9..13] == h[8..12] && r[14..18] == h[12..16];
    assert r[19..23] == h[16..20] && r[24..] == h[20..];
    assert h == h[..8] + h[8..12] + h[12..16] + h[16..20] + h[20..];
    r
  }

  /** Distinct UUIDs have distinct texts: the text reads back to the UUID. */
  lemma UuidTextReadsBack(u: Uuid)
    ensures var r := UuidText(u); ParseHex(r[..8] + r[9..13] + r[14..18] + r[19..23] + r[24..]) == u
  {
    UuidDigits();
    HexDigitsRoundTrip(u, 32);
  }

  lemma UuidTextInjective(u: Uuid, v: Uuid)
    requires UuidText(u) == UuidText(v)
    ensures u == v
  {
    UuidTextReadsBack(u);
    UuidTextReadsBack(v);
  }

  /** `str(Decimal)` of a two-place decimal, such as "-12.05". */
  function DecimalText(hundredths: int): string {
    var mag: nat := if hundredths < 0 then -hundredths else hundredths;
    (if hundredths < 0 then "-" else "") + NatToString(mag / 100) + "." + ZeroPad(mag % 100, 2)
  }

  /** `datetime.isoformat()` of an aware UTC date-time. */
  function DateTimeText(date: Dates.ValidDate, second: nat, micro: nat): string {
    var s := second % SecondsPerDay;
    Dates.IsoDate(date) + "T" + ZeroPad(s / 3600, 2) + ":" + ZeroPad(s / 60 % 60, 2) + ":" +
    ZeroPad(s % 60, 2) + (if micro % 1000000 == 0 then "" else "." + ZeroPad(micro % 1000000, 6)) + "+00:00"
  }

  /** The JSON form the serialiser gives one field value: related rows by
      primary key (UUIDs as text), date-times and dates in ISO form, UUIDs
      and decimals as text, anything else unchanged. */
  function ToJson(v: FieldValue): Json {
    match v
    case Related(IntPk(n)) => JInt(n)
    case Related(UuidPk(u)) => JString(UuidText(u))
    case DateTimeValue(d, s, us) => JString(DateTimeText(d, s, us))
    case DateValue(d) => JString(Dates.IsoDate(d))
    case UuidValue(u) => JString(UuidText(u))
    case DecimalValue(h) => JString(DecimalText(h))
    case PlainValue(j) => j
  }

  /** The snapshot of a field list: every non-bookkeeping field, by name;
      a later field of the same name overwrites an earlier one. */
  function Serialize(fields: seq<Field>): (data: Snapshot)
    ensures forall n :: n in data ==> !IsBookkeeping(n)
    ensures forall k :: 0 <= k < |fields| && !IsBookkeeping(fields[k].name) ==> fields[k].name in data
    ensures forall n :: n in data ==> exists k :: 0 <= k < |fields| && fields[k].name == n
  {
    if fields == [] then map[]
    else
      var init := Serialize(fields[..|fields| - 1]);
      var f := fields[|fields| - 1];
      assert forall k :: 0 <= k < |fields| - 1 ==> fields[..|fields| - 1][k] == fields[k];
      if IsBookkeeping(f.name) then init else init[f.name := ToJson(f.value)]
  }

  predicate DistinctNames(fields: seq<Field>) {
    forall i, j :: 0 <= i < j < |fields| ==> fields[i].name != fields[j].name
  }

  /** With distinct names, every non-bookkeeping field appears in the
      snapshot with its own serialised value. */
  lemma {:induction false} SerializeContents(fields: seq<Field>)
    requires DistinctNames(fields)
    ensures forall k :: 0 <= k < |fields| && !IsBookkeeping(fields[k].name) ==>
      Serialize(fields)[fields[k].name] == ToJson(fields[k].value)
  {
    if fields != [] {
      var init, f := fields[..|fields| - 1], fields[|fields| - 1];
      SerializeContents(init);
      assert fields == init + [f];
      SerializeSnoc(init, f);
      forall k | 0 <= k < |fields| && !IsBookkeeping(fields[k].name)
        ensures Serialize(fields)[fields[k].name] == ToJson(fields[k].value)
      {
        if k < |init| {
          assert init[k] == fields[k] && fields[k].name != f.name;
        }
      }
    }
  }

  /** The snapshot of a row holds exactly its own fields, serialised, and
      never the bookkeeping columns. */
  lemma SnapshotOfRecord(r: Record)
    requires DistinctNames(r.fields)
    requires forall k :: 0 <= k < |r.fields| ==> !IsBookkeeping(r.fields[k].name)
    ensures "is_deleted" !in Serialize(AllFields(r)) && "deleted_at" !in Serialize(AllFields(r))
    ensures forall k :: 0 <= k < |r.fields| ==>
      r.fields[k].name in Serialize(AllFields(r)) && Serialize(AllFields(r))[r.fields[k].name] == ToJson(r.fields[k].value)
    ensures forall n :: n in Serialize(AllFields(r)) ==> exists k :: 0 <= k < |r.fields| && r.fields[k].name == n
  {
    var all := AllFields(r);
    assert forall k :: 0 <= k < |r.fields| ==> all[k] == r.fields[k];
    assert DistinctNames(all);
    SerializeContents(all);
  }

  /** One more field is added to the snapshot unless it is a bookkeeping
      column. */
  lemma SerializeSnoc(fields: seq<Field>, f: Field)
    ensures Serialize(fields + [f]) ==
      if IsBookkeeping(f.name) then Serialize(fields) else Serialize(fields)[f.name := ToJson(f.value)]
  {
    assert (fields + [f])[..|fields|] == fields;
  }

  /** `_get_serializable_data`: walks the row's fields in order. */
  method SerializableData(r: Record) returns (data: Snapshot)
    ensures data == Serialize(AllFields(r))
  {
    var fields := AllFields(r);
    data := map[];
    for i := 0 to |fields|
      invariant data == Serialize(fields[..i])
    {
      Seqs.TakeSnoc(fields, i);
      data := SerializeField(data, fields[..i], fields[i]);
    }
    assert fields[..|fields|] == fields;
  }

  /** One turn of the walk: a field that is not a bookkeeping column is
      written under its name. */
  method SerializeField(data: Snapshot, ghost done: seq<Field>, f: Field) returns (data': Snapshot)
    requires data == Serialize(done)
    ensures data' == Serialize(done + [f])
  {
    SerializeSnoc(done, f);
    data' := data;
    if !IsBookkeeping(f.name) {
      data' := data[f.name := ToJson(f.value)];
    }
  }

  // ---------------------------------------------------------------- tombstones

  /** `save()`: a missing expiry becomes `now` plus the retention period. */
  function ExpiryOnSave(expiresAt: Option<Time>, now: Time): (e: Time)
    ensures expiresAt.Some? ==> e == expiresAt.value
    ensures expiresAt.None? ==> e > now && e - now == 70 * 86400
  {
    match expiresAt
    case Some(t) => t
    case None => now + RetentionSeconds
  }

  function IntSlot(pk: Pk): Option<nat> {
    if pk.IntPk? then Some(pk.n) else None
  }

  function UuidSlot(pk: Pk): Option<Uuid> {
    if pk.UuidPk? then Some(pk.u) else None
  }

  /** The tombstone `soft_delete` writes for a row. */
  function NewTombstone(id: nat, key: RecordKey, data: Snapshot, deleter: Option<UserId>, now: Time): Tombstone {
    Tombstone(id, key.tag, IntSlot(key.pk), UuidSlot(key.pk), data, now, deleter,
              ExpiryOnSave(None, now), None, None)
  }

  /** `actual_object_id`: `object_id_int or object_id_uuid`, so an integer
      key of 0, being falsy, falls through to the UUID slot. */
  function ActualObjectId(t: Tombstone): (r: Option<Pk>)
    ensures r.Some? && r.value.IntPk? ==> t.objectIdInt == Some(r.value.n) && r.value.n != 0
    ensures r.Some? && r.value.UuidPk? ==> t.objectIdUuid == Some(r.value.u) && (t.objectIdInt.None? || t.objectIdInt == Some(0))
    ensures r.None? <==> t.objectIdUuid.None? && (t.objectIdInt.None? || t.objectIdInt == Some(0))
  {
    if t.objectIdInt.Some? && t.objectIdInt.value != 0 then Some(IntPk(t.objectIdInt.value))
    else if t.objectIdUuid.Some? then Some(UuidPk(t.objectIdUuid.value))
    else None
  }

  /** A tombstone written for a row points back at that row, except for the
      integer key 0, which nothing can point at. */
  lemma TombstonePointsBack(id: nat, key: RecordKey, data: Snapshot, deleter: Option<UserId>, now: Time)
    ensures var t := NewTombstone(id, key, data, deleter, now);
      (t.objectIdInt.Some? != t.objectIdUuid.Some?) &&
      (key.pk != IntPk(0) ==> ActualObjectId(t) == Some(key.pk)) &&
      (key.pk == IntPk(0) ==> ActualObjectId(t) == None)
  {
  }

  /** `get_original_object`: the row the tombstone names, looked up among
      all rows (soft-deleted ones included); `None` when the model is not
      installed, the key is empty or the row is gone. */
  function Locate(records: map<RecordKey, Record>, installed: set<TypeTag>, t: Tombstone): (r: Option<RecordKey>)
    ensures r.Some? ==> r.value in records && r.value.tag == t.contentType && ActualObjectId(t) == Some(r.value.pk)
    ensures r.None? ==> t.contentType !in installed || ActualObjectId(t).None? ||
                        RecordKey(t.contentType, ActualObjectId(t).value) !in records
  {
    if t.contentType !in installed then None
    else
      match ActualObjectId(t)
      case None => None
      case Some(pk) => if RecordKey(t.contentType, pk) in records then Some(RecordKey(t.contentType, pk)) else None
  }

  predicate IsExpired(t: Tombstone, now: Time) {
    now >= t.expiresAt
  }

  /** Shown by the list view: not restored and not yet expired. */
  predicate Listable(t: Tombstone, now: Time) {
    t.restoredAt.None? && t.expiresAt > now
  }

  /** Picked up by the sweep: not restored and expired. */
  predicate IsSweepCandidate(t: Tombstone, now: Time) {
    t.restoredAt.None? && t.expiresAt <= now
  }

  /** Every unrestored tombstone is either listed or swept, never both. */
  lemma ListedOrSwept(t: Tombstone, now: Time)
    ensures Listable(t, now) ==> !IsSweepCandidate(t, now) && !IsExpired(t, now)
    ensures t.restoredAt.None? ==> (Listable(t, now) <==> !IsSweepCandidate(t, now))
    ensures IsSweepCandidate(t, now) <==> t.restoredAt.None? && IsExpired(t, now)
  {
  }

  /** The tombstone `restore` matches: same model and the same key in the
      same slot, not yet restored. */
  predicate MatchesOpen(t: Tombstone, key: RecordKey) {
    t.contentType == key.tag && t.objectIdInt == IntSlot(key.pk) &&
    t.objectIdUuid == UuidSlot(key.pk) && t.restoredAt.None?
  }

  /** Stamps every open tombstone of `key` as restored at `now`; nothing
      else changes and `restored_by` stays empty. */
  function MarkRestored(items: seq<Tombstone>, key: RecordKey, now: Time): (r: seq<Tombstone>)
    ensures |r| == |items|
    ensures forall k :: 0 <= k < |items| && MatchesOpen(items[k], key) ==> r[k] == items[k].(restoredAt := Some(now))
    ensures forall k :: 0 <= k < |items| && !MatchesOpen(items[k], key) ==> r[k] == items[k]
    ensures forall k :: 0 <= k < |items| ==> !MatchesOpen(r[k], key)
  {
    seq(|items|, k requires 0 <= k < |items| =>
      if MatchesOpen(items[k], key) then items[k].(restoredAt := Some(now)) else items[k])
  }

  /** The tombstone a soft delete writes is matched by a later restore of
      the same row. */
  lemma RestoreMatchesSoftDelete(id: nat, key: RecordKey, data: Snapshot, deleter: Option<UserId>, now: Time)
    ensures MatchesOpen(NewTombstone(id, key, data, deleter, now), key)
    ensures forall other: RecordKey :: other != key ==> !MatchesOpen(NewTombstone(id, key, data, deleter, now), other)
  {
    forall other: RecordKey | other != key
      ensures !MatchesOpen(NewTombstone(id, key, data, deleter, now), other)
    {
      if other.tag == key.tag {
        match key.pk
        case IntPk(n) =>
          if other.pk.IntPk? { assert other.pk.n != n; }
        case UuidPk(u) =>
          if other.pk.UuidPk? { assert other.pk.u != u; }
      }
    }
  }

  /** The position of the tombstone with `id` that satisfies `p`, if any. */
  function FindItem(items: seq<Tombstone>, id: nat, p: Tombstone -> bool): (r: Option<nat>)
    ensures r.Some? ==> r.value < |items| && items[r.value].id == id && p(items[r.value])
    ensures r.None? ==> forall k :: 0 <= k < |items| && items[k].id == id ==> !p(items[k])
  {
    if items == [] then None
    else if items[0].id == id && p(items[0]) then Some(0)
    else
      match FindItem(items[1..], id, p)
      case None => None
      case Some(k) => Some(k + 1)
  }

  // ---------------------------------------------------------------- managers

  /** `objects`: rows not soft-deleted. */
  function DefaultView(records: map<RecordKey, Record>): set<RecordKey> {
    set k | k in records && !records[k].isDeleted
  }

  /** `objects.archives()`: soft-deleted rows. */
  function Archives(records: map<RecordKey, Record>): set<RecordKey> {
    set k | k in records && records[k].isDeleted
  }

  /** `objects.all_with_deleted()` and `all_objects`: every row. */
  function AllWithDeleted(records: map<RecordKey, Record>): set<RecordKey> {
    records.Keys
  }

  /** The default manager and the archive split the table. */
  lemma ManagersPartition(records: map<RecordKey, Record>)
    ensures DefaultView(records) + Archives(records) == AllWithDeleted(records)
    ensures DefaultView(records) * Archives(records) == {}
  {
  }

  function Flagged(r: Record, now: Time): Record {
    r.(isDeleted := true, deletedAt := Some(now))
  }

  function Cleared(r: Record): Record {
    r.(isDeleted := false, deletedAt := None)
  }

  /** Soft-deleting a row moves it from the default manager to the archive
      and restoring moves it back, keeping its own fields; no other row
      changes in either. */
  lemma SoftDeleteAndRestore(records: map<RecordKey, Record>, key: RecordKey, now: Time)
    requires key in records
    ensures var after := records[key := Flagged(records[key], now)];
      key !in DefaultView(after) && key in Archives(after) &&
      DefaultView(after) == DefaultView(records) - {key} &&
      after[key].fields == records[key].fields
    ensures var after := records[key := Cleared(records[key])];
      key in DefaultView(after) && key !in Archives(after) &&
      DefaultView(after) == DefaultView(records) + {key} &&
      Cleared(Flagged(records[key], now)) == Cleared(records[key])
  {
  }

  /** Whether `delete(user=...)` soft-deletes: only for a given user whose
      role is not super admin. */
  predicate SoftDeletes(actor: Option<User>) {
    actor.Some? && actor.value.role != SuperAdmin
  }

  predicate IsSuperAdmin(requester: Option<User>) {
    requester.Some? && requester.value.role == SuperAdmin
  }

  /** A super admin's delete is always a hard delete; a delete with no user
      (the sweep) is too. */
  lemma HardDeleteActors(actor: Option<User>)
    ensures IsSuperAdmin(actor) ==> !SoftDeletes(actor)
    ensures actor.None? ==> !SoftDeletes(actor)
    ensures actor.Some? && !IsSuperAdmin(actor) ==> SoftDeletes(actor)
  {
  }

  /** The tombstone table's invariant: ids ascend and stay below the next id,
      each tombstone fills exactly one key slot, expires after it was
      written, and names a restorer only once restored. */
  ghost predicate ValidItems(items: seq<Tombstone>, nextId: nat) {
    (forall i, j :: 0 <= i < j < |items| ==> items[i].id < items[j].id) &&
    (forall i :: 0 <= i < |items| ==>
      items[i].id < nextId &&
      (items[i].objectIdInt.Some? != items[i].objectIdUuid.Some?) &&
      items[i].deletedAt < items[i].expiresAt &&
      (items[i].restoredBy.Some? ==> items[i].restoredAt.Some?))
  }

  /** Tombstones once restored are never changed or removed again. */
  ghost predicate KeepsRestored(before: seq<Tombstone>, after: seq<Tombstone>) {
    forall t :: t in before && t.restoredAt.Some? ==> t in after
  }

  lemma FilterValid(items: seq<Tombstone>, nextId: nat, p: Tombstone -> bool)
    requires ValidItems(items, nextId)
    ensures ValidItems(Seqs.Filter(items, p), nextId)
  {
    Seqs.FilterKeepsOrder(items, p, (t: Tombstone) => t.id as int);
    var r := Seqs.Filter(items, p);
    forall i | 0 <= i < |r| ensures r[i] in items { }
  }

  lemma MarkRestoredValid(items: seq<Tombstone>, nextId: nat, key: RecordKey, now: Time)
    requires ValidItems(items, nextId)
    ensures ValidItems(MarkRestored(items, key, now), nextId)
    ensures KeepsRestored(items, MarkRestored(items, key, now))
  {
    var r := MarkRestored(items, key, now);
    forall t | t in items && t.restoredAt.Some? ensures t in r {
      var k :| 0 <= k < |items| && items[k] == t;
      assert r[k] == t;
    }
  }

  /** The sweep's candidates in the table's default order (newest first). */
  function Candidates(items: seq<Tombstone>, now: Time): (r: seq<Tombstone>)
    ensures forall t :: t in r <==> t in items && IsSweepCandidate(t, now)
  {
    var c := Seqs.Filter(items, (t: Tombstone) => IsSweepCandidate(t, now));
    var r := Seqs.SortBy(c, (t: Tombstone) => -t.deletedAt);
    assert forall t :: t in r <==> t in multiset(r);
    assert forall t :: t in c <==> t in multiset(c);
    r
  }

  /** What a sweep leaves in the table: every tombstone but the candidates
      whose processing did not fail. */
  function SweepRemaining(items: seq<Tombstone>, now: Time, faults: map<nat, Fault>): (r: seq<Tombstone>)
    ensures forall t :: t in r <==> t in items && !(IsSweepCandidate(t, now) && t.id !in faults)
  {
    Seqs.Filter(items, Survives(now, faults))
  }

  /** Survives a sweep: not a candidate, or one whose processing fails. */
  function Survives(now: Time, faults: map<nat, Fault>): Tombstone -> bool {
    (t: Tombstone) => !(IsSweepCandidate(t, now) && t.id !in faults)
  }

  /** Where processing one tombstone in the sweep raised an exception:
      before anything was written (the lookup of the original failed), or
      after the original row was hard-deleted but before the tombstone
      was. */
  datatype Fault = FailsBeforeWrites | FailsAfterOriginalErased

  predicate WritesNothing(t: Tombstone, faults: map<nat, Fault>) {
    t.id in faults && faults[t.id] == FailsBeforeWrites
  }

  /** The rows a sweep over `cands` hard-deletes. */
  function ErasedBySweep(records: map<RecordKey, Record>, installed: set<TypeTag>,
                         cands: seq<Tombstone>, faults: map<nat, Fault>): (r: set<RecordKey>)
    ensures forall k :: k in r ==> k in records
    ensures forall k :: k in r ==> exists i :: 0 <= i < |cands| && Locate(records, installed, cands[i]) == Some(k)
  {
    if cands == [] then {}
    else
      var init := cands[..|cands| - 1];
      var t := cands[|cands| - 1];
      var erased := ErasedBySweep(records, installed, init, faults);
      assert forall i :: 0 <= i < |init| ==> init[i] == cands[i];
      if WritesNothing(t, faults) then erased
      else match Locate(records, installed, t)
        case None => erased
        case Some(k) => erased + {k}
  }

  /** The ids a sweep over `cands` removes from the table. */
  function RemovedBySweep(cands: seq<Tombstone>, faults: map<nat, Fault>): (r: set<nat>)
    ensures forall id :: id in r <==> exists i :: 0 <= i < |cands| && cands[i].id == id && id !in faults
  {
    if cands == [] then {}
    else
      var init := cands[..|cands| - 1];
      var t := cands[|cands| - 1];
      assert forall i :: 0 <= i < |init| ==> init[i] == cands[i];
      RemovedBySweep(init, faults) + (if t.id in faults then {} else {t.id})
  }

  /** A sweep without failures leaves nothing for a second sweep at the same
      time, and keeps every tombstone that was not a candidate. */
  lemma SweepIsIdempotent(items: seq<Tombstone>, now: Time)
    ensures Candidates(SweepRemaining(items, now, map[]), now) == []
    ensures forall t :: t in items && !IsSweepCandidate(t, now) ==> t in SweepRemaining(items, now, map[])
  {
  }

  /** The tombstones a failure-free sweep keeps are exactly the ones the
      list view could still show or that were restored. */
  lemma SweepKeepsListable(items: seq<Tombstone>, now: Time)
    ensures forall t :: t in SweepRemaining(items, now, map[]) <==> t in items && (Listable(t, now) || t.restoredAt.Some?)
  {
  }

  /** Newest first: `ordering = ['-deleted_at']`. */
  ghost predicate NewestFirst(s: seq<Tombstone>) {
    forall i, j :: 0 <= i < j < |s| ==> s[i].deletedAt >= s[j].deletedAt
  }

  /** In a valid bin an id names one row. */
  lemma SameIdSameRow(items: seq<Tombstone>, nextId: nat, a: Tombstone, b: Tombstone)
    requires ValidItems(items, nextId) && a in items && b in items && a.id == b.id
    ensures a == b
  {
    var i :| 0 <= i < |items| && items[i] == a;
    var j :| 0 <= j < |items| && items[j] == b;
    assert i == j;
  }

  /** The tombstones a bulk soft delete of `keys` writes, ids from `next`. */
  function Tombstones(records: map<RecordKey, Record>, keys: seq<RecordKey>, next: nat, user: UserId, now: Time): (r: seq<Tombstone>)
    requires forall k :: k in keys ==> k in records
    ensures |r| == |keys|
    ensures forall j :: 0 <= j < |keys| ==>
      r[j] == NewTombstone(next + j, keys[j], Serialize(AllFields(records[keys[j]])), Some(user), now)
  {
    seq(|keys|, j requires 0 <= j < |keys| => NewTombstone(next + j, keys[j], Serialize(AllFields(records[keys[j]])), Some(user), now))
  }

  /** The rows after a bulk soft delete of `keys`. */
  function FlaggedAll(records: map<RecordKey, Record>, keys: seq<RecordKey>, now: Time): map<RecordKey, Record> {
    map k | k in records :: if k in keys then Flagged(records[k], now) else records[k]
  }

  /** One more key in a bulk soft delete: one more tombstone, one more
      flagged row. */
  lemma BulkStep(records: map<RecordKey, Record>, keys: seq<RecordKey>, key: RecordKey, next: nat, user: UserId, now: Time)
    requires forall k :: k in keys ==> k in records
    requires key in records && key !in keys
    ensures Tombstones(records, keys + [key], next, user, now) ==
      Tombstones(records, keys, next, user, now) + [NewTombstone(next + |keys|, key, Serialize(AllFields(records[key])), Some(user), now)]
    ensures FlaggedAll(records, keys + [key], now) == FlaggedAll(records, keys, now)[key := Flagged(records[key], now)]
    ensures FlaggedAll(records, keys, now)[key] == records[key]
  {
  }

  // ---------------------------------------------------------------- the database

  class Database {
    /** The rows of every soft-deletable model. */
    var records: map<RecordKey, Record>
    /** The RecycleBinItem table, in primary-key order. */
    var items: seq<Tombstone>
    var nextItemId: nat
    /** Content types whose model class is installed. */
    const installed: set<TypeTag>

    ghost predicate Valid()
      reads this
    {
      ValidItems(items, nextItemId)
    }

    constructor(installed: set<TypeTag>, records: map<RecordKey, Record>)
      ensures Valid()
      ensures this.installed == installed && this.records == records
      ensures items == [] && nextItemId == 0
    {
      this.installed := installed;
      this.records := records;
      items := [];
      nextItemId := 0;
    }

    /** `soft_delete(user)`: first writes the tombstone with the row's
        snapshot, then flags the row; the two writes are separate. */
    method SoftDelete(key: RecordKey, user: UserId, now: Time)
      requires Valid() && key in records
      modifies this
      ensures Valid()
      ensures items == old(items) + [NewTombstone(old(nextItemId), key, Serialize(AllFields(old(records)[key])), Some(user), now)]
      ensures nextItemId == old(nextItemId) + 1
      ensures records == old(records)[key := Flagged(old(records)[key], now)]
    {
      var data := SerializableData(records[key]);
      var t := NewTombstone(nextItemId, key, data, Some(user), now);
      items := items + [t];
      nextItemId := nextItemId + 1;
      records := records[key := Flagged(records[key], now)];
    }

    /** The instance `delete(user=...)`: a soft delete for a user who is not
        a super admin, otherwise a hard delete that leaves the tombstones. */
    method Delete(key: RecordKey, actor: Option<User>, now: Time)
      requires Valid() && key in records
      modifies this
      ensures Valid()
      ensures SoftDeletes(actor) ==>
        items == old(items) + [NewTombstone(old(nextItemId), key, Serialize(AllFields(old(records)[key])), Some(actor.value.id), now)] &&
        nextItemId == old(nextItemId) + 1 &&
        records == old(records)[key := Flagged(old(records)[key], now)]
      ensures !SoftDeletes(actor) ==>
        records == old(records) - {key} && items == old(items) && nextItemId == old(nextItemId)
    {
      if SoftDeletes(actor) {
        SoftDelete(key, actor.value.id, now);
      } else {
        records := records - {key};
      }
    }

    /** The queryset `delete(user=...)`: for a user who is not a super
        admin, soft-deletes each row in turn; otherwise one hard delete. */
    method BulkDelete(keys: seq<RecordKey>, actor: Option<User>, now: Time)
      requires Valid()
      requires forall k :: 0 <= k < |keys| ==> keys[k] in records
      requires forall i, j :: 0 <= i < j < |keys| ==> keys[i] != keys[j]
      modifies this
      ensures Valid()
      ensures SoftDeletes(actor) ==>
        |items| == |old(items)| + |keys| && items[..|old(items)|] == old(items) &&
        nextItemId == old(nextItemId) + |keys| &&
        (forall j :: 0 <= j < |keys| ==>
          items[|old(items)| + j] == NewTombstone(old(nextItemId) + j, keys[j],
            Serialize(AllFields(old(records)[keys[j]])), Some(actor.value.id), now)) &&
        records == (map k | k in old(records) :: if k in keys then Flagged(old(records)[k], now) else old(records)[k])
      ensures !SoftDeletes(actor) ==>
        records == old(records) - set k | k in keys && items == old(items) && nextItemId == old(nextItemId)
    {
      if !SoftDeletes(actor) {
        records := records - set k | k in keys;
        return;
      }
      ghost var items0, records0, next0 := items, records, nextItemId;
      var user := actor.value.id;
      var i := 0;
      while i < |keys|
        invariant 0 <= i <= |keys|
        invariant Valid()
        invariant items == items0 + Tombstones(records0, keys[..i], next0, user, now)
        invariant nextItemId == next0 + i
        invariant records == FlaggedAll(records0, keys[..i], now)
      {
        assert keys[i] !in keys[..i];
        assert records[keys[i]] == records0[keys[i]];
        BulkStep(records0, keys[..i], keys[i], next0, user, now);
        SoftDelete(keys[i], user, now);
        Seqs.TakeSnoc(keys, i);
        i := i + 1;
      }
      assert keys[..i] == keys;
    }

    /** The queryset `restore()`: one update clearing both bookkeeping
        columns of the given rows; the tombstones are left as they are.
        Returns the number of rows matched. */
    method BulkRestore(keys: set<RecordKey>) returns (count: nat)
      requires Valid()
      modifies this
      ensures Valid()
      ensures records == (map k | k in old(records) :: if k in keys then Cleared(old(records)[k]) else old(records)[k])
      ensures items == old(items) && nextItemId == old(nextItemId)
      ensures count == |keys * old(records).Keys|
    {
      count := |keys * records.Keys|;
      records := map k | k in records :: if k in keys then Cleared(records[k]) else records[k];
    }

    /** The queryset `hard_delete()`. */
    method HardDelete(keys: set<RecordKey>)
      requires Valid()
      modifies this
      ensures Valid()
      ensures records == old(records) - keys
      ensures items == old(items) && nextItemId == old(nextItemId)
    {
      records := records - keys;
    }

    /** The instance `restore()`: clears the row's bookkeeping columns, then
        stamps every open tombstone of the row as restored. */
    method Restore(key: RecordKey, now: Time)
      requires Valid() && key in records
      modifies this
      ensures Valid()
      ensures records == old(records)[key := Cleared(old(records)[key])]
      ensures items == MarkRestored(old(items), key, now)
      ensures nextItemId == old(nextItemId)
      ensures KeepsRestored(old(items), items)
    {
      records := records[key := Cleared(records[key])];
      MarkRestoredValid(items, nextItemId, key, now);
      items := MarkRestored(items, key, now);
    }

    /** `recycle_bin_list_view`: for a super admin, the tombstones neither
        restored nor expired, newest first; anyone else is refused. */
    function ListView(requester: Option<User>, now: Time): (r: Option<seq<Tombstone>>)
      reads this
      ensures r.Some? <==> IsSuperAdmin(requester)
      ensures r.Some? ==> forall t :: t in r.value <==> t in items && Listable(t, now)
      ensures r.Some? ==> NewestFirst(r.value)
      ensures r.Some? ==> multiset(r.value) == multiset(Seqs.Filter(items, (t: Tombstone) => Listable(t, now)))
    {
      if !IsSuperAdmin(requester) then None
      else
        var shown := Seqs.Filter(items, (t: Tombstone) => Listable(t, now));
        var sorted := Seqs.SortBy(shown, (t: Tombstone) => -t.deletedAt);
        assert forall t :: t in sorted <==> t in multiset(sorted);
        assert forall t :: t in shown <==> t in multiset(shown);
        Some(sorted)
    }

    /** `recycle_bin_restore_view`. */
    method RestoreView(requester: Option<User>, itemId: nat, now: Time) returns (status: Status)
      requires Valid()
      modifies this
      ensures Valid()
      ensures KeepsRestored(old(items), items)
      ensures nextItemId == old(nextItemId)
      ensures status == Denied <==> !IsSuperAdmin(requester)
      ensures status == Ok || status == Denied || status == NotFound
      ensures status != Ok ==> records == old(records) && items == old(items)
      ensures IsSuperAdmin(requester) ==>
        var found := FindItem(old(items), itemId, (t: Tombstone) => Listable(t, now));
        (status == Ok <==> found.Some? && Locate(old(records), installed, old(items)[found.value]).Some?)
      ensures status == Ok ==>
        var idx := FindItem(old(items), itemId, (t: Tombstone) => Listable(t, now)).value;
        var key := Locate(old(records), installed, old(items)[idx]).value;
        records == old(records)[key := Cleared(old(records)[key])] &&
        items == MarkRestored(old(items), key, now)[idx := old(items)[idx].(restoredAt := Some(now), restoredBy := Some(requester.value.id))] &&
        key in DefaultView(records) && !Listable(items[idx], now)
    {
      if !IsSuperAdmin(requester) {
        return Denied;
      }
      var found := FindItem(items, itemId, (t: Tombstone) => Listable(t, now));
      if found.None? {
        return NotFound;
      }
      var idx := found.value;
      var item := items[idx];
      var original := Locate(records, installed, item);
      if original.None? {
        return NotFound;
      }
      Restore(original.value, now);
      var stamped := item.(restoredAt := Some(now), restoredBy := Some(requester.value.id));
      RestoreViewKeepsRestored(old(items), original.value, now, idx, stamped);
      assert items[idx].(restoredAt := Some(now), restoredBy := Some(requester.value.id)) == stamped;
      Stamp(idx, requester.value.id, now);
      return Ok;
    }

    /** Records on one tombstone who restored it and when. */
    method Stamp(idx: nat, restorer: UserId, now: Time)
      requires Valid() && idx < |items|
      modifies this
      ensures Valid()
      ensures items == old(items)[idx := old(items)[idx].(restoredAt := Some(now), restoredBy := Some(restorer))]
      ensures records == old(records) && nextItemId == old(nextItemId)
    {
      items := items[idx := items[idx].(restoredAt := Some(now), restoredBy := Some(restorer))];
    }

    /** `recycle_bin_permanently_delete_view`: the tombstone need only be
        unrestored (expired ones are allowed); its original, if still
        there, is hard-deleted, and the tombstone is removed. */
    method PermanentDeleteView(requester: Option<User>, itemId: nat, now: Time) returns (status: Status)
      requires Valid()
      modifies this
      ensures Valid()
      ensures KeepsRestored(old(items), items)
      ensures nextItemId == old(nextItemId)
      ensures status == Denied <==> !IsSuperAdmin(requester)
      ensures status == NoContent || status == Denied || status == NotFound
      ensures status != NoContent ==> records == old(records) && items == old(items)
      ensures IsSuperAdmin(requester) ==>
        var found := FindItem(old(items), itemId, (t: Tombstone) => t.restoredAt.None?);
        (status == NoContent <==> found.Some?)
      ensures status == NoContent ==>
        var idx := FindItem(old(items), itemId, (t: Tombstone) => t.restoredAt.None?).value;
        var original := Locate(old(records), installed, old(items)[idx]);
        records == (if original.Some? then old(records) - {original.value} else old(records)) &&
        items == Seqs.Filter(old(items), (t: Tombstone) => t.id != itemId)
    {
      if !IsSuperAdmin(requester) {
        return Denied;
      }
      var found := FindItem(items, itemId, (t: Tombstone) => t.restoredAt.None?);
      if found.None? {
        return NotFound;
      }
      EraseItem(requester, found.value, now);
      return NoContent;
    }

    /** The permanent delete of the unrestored tombstone at `idx` by a
        super admin: its original, if still there, is hard-deleted, then every
        tombstone with its id is removed. */
    method EraseItem(requester: Option<User>, idx: nat, now: Time)
      requires Valid() && IsSuperAdmin(requester) && idx < |items| && items[idx].restoredAt.None?
      modifies this
      ensures Valid()
      ensures KeepsRestored(old(items), items)
      ensures nextItemId == old(nextItemId)
      ensures var original, id := Locate(old(records), installed, old(items)[idx]), old(items)[idx].id;
        records == (if original.Some? then old(records) - {original.value} else old(records)) &&
        items == Seqs.Filter(old(items), (t: Tombstone) => t.id != id)
    {
      var item := items[idx];
      var original := Locate(records, installed, item);
      if original.Some? {
        HardDeleteActors(requester);
        Delete(original.value, requester, now);
      }
      FilterValid(items, nextItemId, (t: Tombstone) => t.id != item.id);
      items := Seqs.Filter(items, (t: Tombstone) => t.id != item.id);
    }

    /** `cleanup_expired_recycle_bin_items`: for each expired, unrestored
        tombstone (newest first), hard-deletes its original if it is still
        there, then deletes the tombstone and counts it. A failure while
        processing one tombstone (`faults`) is logged and the loop goes
        on. */
    method Sweep(now: Time, faults: map<nat, Fault>) returns (count: nat)
      requires Valid()
      modifies this
      ensures Valid()
      ensures KeepsRestored(old(items), items)
      ensures nextItemId == old(nextItemId)
      ensures items == SweepRemaining(old(items), now, faults)
      ensures records == old(records) - ErasedBySweep(old(records), installed, Candidates(old(items), now), faults)
      ensures count == |Seqs.Filter(Candidates(old(items), now), Unfaulted(faults))|
    {
      var cands := Candidates(items, now);
      ghost var items0 := items;
      items, records, count := SweepLoop(items, records, installed, cands, faults);
      SweepRemainingByIds(items0, nextItemId, now, faults);
      FilterValid(items0, nextItemId, Survives(now, faults));
      assert forall t :: t in items0 && t.restoredAt.Some? ==> !IsSweepCandidate(t, now);
    }
  }

  /** The loop of the sweep, over the candidates in order: each one not set
      to fail before writing has its original hard-deleted when it is still
      there, and each one not set to fail at all is removed and counted. */
  method SweepLoop(items0: seq<Tombstone>, records0: map<RecordKey, Record>, installed: set<TypeTag>,
                   cands: seq<Tombstone>, faults: map<nat, Fault>)
    returns (items: seq<Tombstone>, records: map<RecordKey, Record>, count: nat)
    ensures items == Seqs.Filter(items0, Outside(RemovedBySweep(cands, faults)))
    ensures records == records0 - ErasedBySweep(records0, installed, cands, faults)
    ensures count == |Seqs.Filter(cands, Unfaulted(faults))|
  {
    items, records, count := items0, records0, 0;
    Seqs.FilterAll(items0, Outside({}));
    var i := 0;
    while i < |cands|
      invariant 0 <= i <= |cands|
      invariant items == Seqs.Filter(items0, Outside(RemovedBySweep(cands[..i], faults)))
      invariant records == records0 - ErasedBySweep(records0, installed, cands[..i], faults)
      invariant count == |Seqs.Filter(cands[..i], Unfaulted(faults))|
    {
      items, records, count := SweepNext(items0, records0, installed, cands, i, faults, items, records, count);
      i := i + 1;
    }
    assert cands[..i] == cands;
  }

  /** One turn of the sweep's loop: processes `cands[i]` and counts it when
      it is removed. */
  method SweepNext(ghost items0: seq<Tombstone>, ghost records0: map<RecordKey, Record>, installed: set<TypeTag>,
                   cands: seq<Tombstone>, i: nat, faults: map<nat, Fault>,
                   items: seq<Tombstone>, records: map<RecordKey, Record>, count: nat)
    returns (items': seq<Tombstone>, records': map<RecordKey, Record>, count': nat)
    requires i < |cands|
    requires items == Seqs.Filter(items0, Outside(RemovedBySweep(cands[..i], faults)))
    requires records == records0 - ErasedBySweep(records0, installed, cands[..i], faults)
    requires count == |Seqs.Filter(cands[..i], Unfaulted(faults))|
    ensures items' == Seqs.Filter(items0, Outside(RemovedBySweep(cands[..i + 1], faults)))
    ensures records' == records0 - ErasedBySweep(records0, installed, cands[..i + 1], faults)
    ensures count' == |Seqs.Filter(cands[..i + 1], Unfaulted(faults))|
  {
    SweepStepItems(items0, items, cands, i, faults);
    SweepStepRecords(records0, records, installed, cands, i, faults);
    CountStep(cands, i, faults);
    var done;
    items', records', done := SweepOne(cands[i], items, records, installed, faults);
    count' := if done then count + 1 else count;
  }

  /** The body of the sweep's loop for one tombstone: hard-deletes the
      original unless the lookup fails, then deletes the tombstone unless
      that fails; `done` says whether the tombstone counts. */
  method SweepOne(t: Tombstone, items: seq<Tombstone>, records: map<RecordKey, Record>,
                  installed: set<TypeTag>, faults: map<nat, Fault>)
    returns (items': seq<Tombstone>, records': map<RecordKey, Record>, done: bool)
    ensures records' == if !WritesNothing(t, faults) && Locate(records, installed, t).Some?
                         then records - {Locate(records, installed, t).value} else records
    ensures done == (t.id !in faults)
    ensures items' == if done then Seqs.Filter(items, Outside({t.id})) else items
  {
    items', records' := items, records;
    if !WritesNothing(t, faults) {
      var original := Locate(records, installed, t);
      if original.Some? {
        records' := records - {original.value};
      }
    }
    done := t.id !in faults;
    if done {
      items' := Seqs.Filter(items, Outside({t.id}));
    }
  }

  /** Keeps the tombstones whose id is not in `ids`. */
  function Outside(ids: set<nat>): Tombstone -> bool {
    (t: Tombstone) => t.id !in ids
  }

  /** Keeps the tombstones whose processing is not set to fail. */
  function Unfaulted(faults: map<nat, Fault>): Tombstone -> bool {
    (t: Tombstone) => t.id !in faults
  }

  /** Removing one more id from a filtered table. */
  lemma FilterOutside(items: seq<Tombstone>, ids: set<nat>, id: nat)
    ensures Seqs.Filter(Seqs.Filter(items, Outside(ids)), Outside({id})) == Seqs.Filter(items, Outside(ids + {id}))
  {
    Seqs.FilterFilter(items, Outside(ids), Outside({id}), Outside(ids + {id}));
  }

  /** Looking a tombstone up in a table with fewer rows finds the same row
      or nothing. */
  lemma LocateInSmaller(big: map<RecordKey, Record>, small: map<RecordKey, Record>, installed: set<TypeTag>, t: Tombstone)
    requires small.Keys <= big.Keys
    ensures Locate(small, installed, t).Some? ==> Locate(big, installed, t) == Locate(small, installed, t)
    ensures Locate(big, installed, t).Some? && Locate(big, installed, t).value in small ==>
      Locate(small, installed, t) == Locate(big, installed, t)
  {
  }

  /** The ids removed grow by the candidate unless it is set to fail. */
  lemma RemovedStep(cands: seq<Tombstone>, i: nat, faults: map<nat, Fault>)
    requires i < |cands|
    ensures RemovedBySweep(cands[..i + 1], faults) ==
      RemovedBySweep(cands[..i], faults) + (if cands[i].id in faults then {} else {cands[i].id})
  {
    assert cands[..i + 1][..i] == cands[..i];
  }

  /** The rows erased grow by the candidate's original, unless it is set to
      fail before writing or has no original. */
  lemma ErasedStep(records: map<RecordKey, Record>, installed: set<TypeTag>, cands: seq<Tombstone>, i: nat, faults: map<nat, Fault>)
    requires i < |cands|
    ensures !WritesNothing(cands[i], faults) && Locate(records, installed, cands[i]).Some? ==>
      ErasedBySweep(records, installed, cands[..i + 1], faults) ==
        ErasedBySweep(records, installed, cands[..i], faults) + {Locate(records, installed, cands[i]).value}
    ensures WritesNothing(cands[i], faults) || Locate(records, installed, cands[i]).None? ==>
      ErasedBySweep(records, installed, cands[..i + 1], faults) == ErasedBySweep(records, installed, cands[..i], faults)
  {
    assert cands[..i + 1][..i] == cands[..i];
  }

  /** One step of the sweep keeps the table equal to the original minus
      the ids removed so far. */
  lemma SweepStepItems(items0: seq<Tombstone>, items: seq<Tombstone>, cands: seq<Tombstone>, i: nat, faults: map<nat, Fault>)
    requires i < |cands|
    requires items == Seqs.Filter(items0, Outside(RemovedBySweep(cands[..i], faults)))
    ensures (if cands[i].id !in faults then Seqs.Filter(items, Outside({cands[i].id})) else items) ==
            Seqs.Filter(items0, Outside(RemovedBySweep(cands[..i + 1], faults)))
  {
    var t := cands[i];
    RemovedStep(cands, i, faults);
    var removed, removed' := RemovedBySweep(cands[..i], faults), RemovedBySweep(cands[..i + 1], faults);
    if t.id !in faults {
      FilterOutside(items0, removed, t.id);
      assert removed' == removed + {t.id};
    } else {
      assert removed' == removed;
    }
  }

  /** One step of the sweep keeps the rows equal to the original ones minus
      the rows erased so far. */
  lemma SweepStepRecords(records0: map<RecordKey, Record>, records: map<RecordKey, Record>, installed: set<TypeTag>,
                         cands: seq<Tombstone>, i: nat, faults: map<nat, Fault>)
    requires i < |cands|
    requires records == records0 - ErasedBySweep(records0, installed, cands[..i], faults)
    ensures (if !WritesNothing(cands[i], faults) && Locate(records, installed, cands[i]).Some?
             then records - {Locate(records, installed, cands[i]).value} else records) ==
            records0 - ErasedBySweep(records0, installed, cands[..i + 1], faults)
  {
    ErasedStep(records0, installed, cands, i, faults);
    LocateInSmaller(records0, records, installed, cands[i]);
  }

  /** The count grows by one unless the candidate is set to fail. */
  lemma CountStep(cands: seq<Tombstone>, i: nat, faults: map<nat, Fault>)
    requires i < |cands|
    ensures |Seqs.Filter(cands[..i + 1], Unfaulted(faults))| ==
      |Seqs.Filter(cands[..i], Unfaulted(faults))| + (if cands[i].id in faults then 0 else 1)
  {
    Seqs.TakeSnoc(cands, i);
    Seqs.FilterAppend(cands[..i], [cands[i]], Unfaulted(faults));
  }

  /** Marking a row's tombstones restored and then stamping one that was
      open keeps every tombstone that was already restored. */
  lemma RestoreViewKeepsRestored(items: seq<Tombstone>, key: RecordKey, now: Time, idx: nat, stamped: Tombstone)
    requires idx < |items| && items[idx].restoredAt.None?
    ensures KeepsRestored(items, MarkRestored(items, key, now)[idx := stamped])
  {
    var after := MarkRestored(items, key, now)[idx := stamped];
    forall t | t in items && t.restoredAt.Some? ensures t in after {
      var k :| 0 <= k < |items| && items[k] == t;
      assert after[k] == t;
    }
  }

  /** Removing the ids a sweep processes is removing its surviving
      candidates. */
  lemma SweepRemainingByIds(items: seq<Tombstone>, nextId: nat, now: Time, faults: map<nat, Fault>)
    requires ValidItems(items, nextId)
    ensures Seqs.Filter(items, Outside(RemovedBySweep(Candidates(items, now), faults))) ==
            SweepRemaining(items, now, faults)
  {
    var cands := Candidates(items, now);
    var removed := RemovedBySweep(cands, faults);
    forall k | 0 <= k < |items|
      ensures (items[k].id !in removed) == !(IsSweepCandidate(items[k], now) && items[k].id !in faults)
    {
      var t := items[k];
      if t.id in removed {
        var i :| 0 <= i < |cands| && cands[i].id == t.id && t.id !in faults;
        assert cands[i] in cands;
        SameIdSameRow(items, nextId, cands[i], t);
      }
      if IsSweepCandidate(t, now) && t.id !in faults {
        assert t in cands;
        var i :| 0 <= i < |cands| && cands[i] == t;
      }
    }
    Seqs.FilterCongruent(items, Outside(removed), Survives(now, faults));
  }
}
