/**
  A table created with `CREATE msync TABLE`: the storage engine keeps a change
  mark in every record slot, and a deleted record that the server may know stays
  behind as a tombstone until the marks are flushed.
*/
module MsyncTable {
  import opened RecordCodec

  datatype Key = Key(id: string, username: string)

  // USED_SLOT, SYNCED_SLOT and UPDATE_SLOT; DELETE_SLOT records are in tombs.
  datatype Mark = Used | Synced | Update

  datatype Row = Row(mark: Mark, contact: Contact)

  datatype Table = Table(rows: map<Key, Row>, tombs: seq<Key>)

  // One record of an upload.
  datatype Upload = Upload(flag: Flag, contact: Contact)

  // What a session does to the local table after its uploads: an upsert with
  // SYNCED_RECORD (exists: it found an equal record), a delete, a flush.
  datatype DbOp = Upsert(contact: Contact, equal: bool) | Remove(key: Key) | FlushMarks

  function KeyOf(c: Contact): Key {
    Key(c.id, c.username)
  }

  // A deletion carries the key only; the other fields keep their empty defaults.
  function Tombstone(k: Key): (c: Contact)
    ensures KeyOf(c) == k
  {
    Contact(k.id, k.username, "", "", "", "", "", "")
  }

  predicate WellKeyed(t: Table) {
    forall k :: k in t.rows ==> KeyOf(t.rows[k].contact) == k
  }

  // --------------------------------------------------------------------------
  // Statements of the user interface

  function InsertRow(t: Table, c: Contact): Table
    requires KeyOf(c) !in t.rows
  {
    t.(rows := t.rows[KeyOf(c) := Row(Used, c)])
  }

  function UpdateRow(t: Table, c: Contact): Table
    requires KeyOf(c) in t.rows
  {
    var was := t.rows[KeyOf(c)].mark;
    t.(rows := t.rows[KeyOf(c) := Row(if was == Synced then Update else was, c)])
  }

  // A record that was never marked synced leaves no tombstone.
  function DeleteRow(t: Table, k: Key): Table
    requires k in t.rows
  {
    Table(t.rows - {k}, if t.rows[k].mark == Used then t.tombs else t.tombs + [k])
  }

  // --------------------------------------------------------------------------
  // Statements of a session

  // An upsert over a record marked synced marks it for upload; over a record
  // marked for upload it clears the mark.
  function UpsertSynced(t: Table, c: Contact, equal: bool): Table
    requires equal ==> KeyOf(c) in t.rows && t.rows[KeyOf(c)].contact == c
  {
    var k := KeyOf(c);
    if k !in t.rows then t.(rows := t.rows[k := Row(Synced, c)])
    else if equal then t
    else t.(rows := t.rows[k := Row(if t.rows[k].mark == Synced then Update else Synced, c)])
  }

  /** The row is left marked for upload exactly when it was synchronised and the
      upsert changed it, or it was marked and the upsert found it equal. */
  lemma UpsertLeavesMarkExactly(t: Table, c: Contact, equal: bool)
    requires equal ==> KeyOf(c) in t.rows && t.rows[KeyOf(c)].contact == c
    ensures var t', k := UpsertSynced(t, c, equal), KeyOf(c);
      && k in t'.rows && t'.rows[k].contact == c && t'.tombs == t.tombs
      && (t'.rows[k].mark != Synced <==> k in t.rows && (t.rows[k].mark == Synced <==> !equal))
      && forall j :: j != k ==> (j in t'.rows <==> j in t.rows) && (j in t.rows ==> t'.rows[j] == t.rows[j])
  {
  }

  function Flush(t: Table): Table {
    Table(map k | k in t.rows :: Row(Synced, t.rows[k].contact), [])
  }

  predicate CanApply(t: Table, op: DbOp) {
    match op
    case Upsert(c, equal) => equal ==> KeyOf(c) in t.rows && t.rows[KeyOf(c)].contact == c
    case Remove(k) => k in t.rows
    case FlushMarks => true
  }

  function Apply(t: Table, op: DbOp): Table
    requires CanApply(t, op)
  {
    match op
    case Upsert(c, equal) => UpsertSynced(t, c, equal)
    case Remove(k) => DeleteRow(t, k)
    case FlushMarks => Flush(t)
  }

  predicate CanApplyAll(t: Table, ops: seq<DbOp>)
    decreases |ops|
  {
    |ops| == 0 || (CanApply(t, ops[0]) && CanApplyAll(Apply(t, ops[0]), ops[1..]))
  }

  function ApplyAll(t: Table, ops: seq<DbOp>): Table
    requires CanApplyAll(t, ops)
    decreases |ops|
  {
    if |ops| == 0 then t else ApplyAll(Apply(t, ops[0]), ops[1..])
  }

  /** Operations can be applied in two goes exactly when they can be applied in one. */
  lemma {:induction false} ApplyAllAppend(t: Table, a: seq<DbOp>, b: seq<DbOp>)
    ensures CanApplyAll(t, a + b) <==> CanApplyAll(t, a) && CanApplyAll(ApplyAll(t, a), b)
    ensures CanApplyAll(t, a + b) ==> ApplyAll(t, a + b) == ApplyAll(ApplyAll(t, a), b)
    decreases |a|
  {
    if |a| == 0 {
      assert a + b == b;
    } else {
      assert (a + b)[1..] == a[1..] + b;
      if CanApply(t, a[0]) {
        ApplyAllAppend(Apply(t, a[0]), a[1..], b);
      }
    }
  }

  // --------------------------------------------------------------------------
  // Selecting by mark

  predicate Selects(t: Table, flag: Flag, c: Contact) {
    match flag
    case InsertFlag => KeyOf(c) in t.rows && t.rows[KeyOf(c)] == Row(Used, c)
    case UpdateFlag => KeyOf(c) in t.rows && t.rows[KeyOf(c)] == Row(Update, c)
    case DeleteFlag => KeyOf(c) in t.tombs && c == Tombstone(KeyOf(c))
  }

  // cs are the records selected by a mark, in whatever order they are stored.
  ghost predicate IsSelection(t: Table, flag: Flag, cs: seq<Contact>) {
    && (forall c :: c in cs <==> Selects(t, flag, c))
    && (flag != DeleteFlag ==> forall i, j :: 0 <= i < j < |cs| ==> KeyOf(cs[i]) != KeyOf(cs[j]))
    && (flag == DeleteFlag ==> |cs| == |t.tombs|)
  }

  function Uploads(flag: Flag, cs: seq<Contact>): (us: seq<Upload>)
    ensures |us| == |cs| && forall i :: 0 <= i < |cs| ==> us[i] == Upload(flag, cs[i])
  {
    seq(|cs|, i requires 0 <= i < |cs| => Upload(flag, cs[i]))
  }

  // All the pending records of a table, in the order a session uploads them.
  ghost predicate IsPendingList(t: Table, us: seq<Upload>) {
    exists ins, upd, del ::
      && IsSelection(t, InsertFlag, ins) && IsSelection(t, UpdateFlag, upd) && IsSelection(t, DeleteFlag, del)
      && us == Uploads(InsertFlag, ins) + Uploads(UpdateFlag, upd) + Uploads(DeleteFlag, del)
  }
}
