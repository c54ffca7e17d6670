/**
  Whole runs of local edits and sync sessions. A session uploads every pending
  record; the server keeps them or not, the client sees an acknowledgement or not,
  each independently of the other. What it keeps is what it reads in the messages.
  After an acknowledgement the server sends what it has for this client, and the
  client makes of it what it can: downloads and flushes, cut short anywhere.
*/
module SyncRuns {
  import opened RecordCodec
  import opened MsyncTable
  import opened ServerRows
  import opened ServerReading

  // `since` is how much had been delivered when the write was made.
  datatype Edit = Wrote(contact: Contact, since: nat) | Removed

  // delivered: records of sessions whose UploadOK succeeded, in order.
  // remote: the server's rows, as far as this client has told or been sent.
  // edits: the last local edit of a key that no download has replaced since.
  datatype State = State(table: Table, delivered: seq<Upload>, remote: Rows, edits: map<Key, Edit>)

  // A session whose messages were all handed over. kept: the server committed
  // them. sent: what it sent afterwards. ops: what the client did to its table.
  datatype Event =
    | LocalInsert(contact: Contact)
    | LocalUpdate(contact: Contact)
    | LocalDelete(key: Key)
    | Session(uploads: seq<Upload>, acknowledged: bool, kept: bool, sent: seq<Sent>, ops: seq<DbOp>)

  const START: State := State(Table(map[], []), [], map[], map[])

  function TouchedBy(op: DbOp): set<Key> {
    match op
    case Upsert(c, _) => {KeyOf(c)}
    case Remove(k) => {k}
    case FlushMarks => {}
  }

  function Touched(ops: seq<DbOp>): set<Key> {
    if |ops| == 0 then {} else TouchedBy(ops[0]) + Touched(ops[1..])
  }

  // The client touches nothing without an acknowledgement; the server keeps
  // nothing of messages it cannot read, and sends nothing without an
  // acknowledgement, nor when its commit failed.
  ghost predicate Allowed(s: State, e: Event) {
    match e
    case LocalInsert(c) => KeyOf(c) !in s.table.rows
    case LocalUpdate(c) => KeyOf(c) in s.table.rows
    case LocalDelete(k) => k in s.table.rows
    case Session(us, acknowledged, kept, sent, ops) =>
      && IsPendingList(s.table, us) && CanApplyAll(s.table, ops)
      && (!acknowledged ==> ops == [])
      && (kept ==> Told(us).Some?)
      && (!acknowledged || !kept ==> sent == [])
  }

  ghost function Next(s: State, e: Event): State
    requires Allowed(s, e)
  {
    match e
    case LocalInsert(c) =>
      s.(table := InsertRow(s.table, c), edits := s.edits[KeyOf(c) := Wrote(c, |s.delivered|)])
    case LocalUpdate(c) =>
      s.(table := UpdateRow(s.table, c), edits := s.edits[KeyOf(c) := Wrote(c, |s.delivered|)])
    case LocalDelete(k) => s.(table := DeleteRow(s.table, k), edits := s.edits[k := Removed])
    case Session(us, acknowledged, kept, sent, ops) =>
      State(ApplyAll(s.table, ops),
            if acknowledged then s.delivered + us else s.delivered,
            Serve(if kept then TellAll(s.remote, Told(us).value) else s.remote, sent),
            s.edits - Touched(ops))
  }

  ghost predicate IsRun(states: seq<State>, events: seq<Event>) {
    && |states| == |events| + 1
    && states[0] == START
    && forall i :: 0 <= i < |events| ==> Allowed(states[i], events[i]) && states[i + 1] == Next(states[i], events[i])
  }

  // --------------------------------------------------------------------------
  // No local write is lost

  predicate IsDelivery(s: State, c: Contact, i: nat) {
    i < |s.delivered| && s.delivered[i] in {Upload(InsertFlag, c), Upload(UpdateFlag, c)}
  }

  // Delivered after the first `since` records were.
  ghost predicate DeliveredSince(s: State, c: Contact, since: nat) {
    exists i: nat :: since <= i && IsDelivery(s, c, i)
  }

  // The current content of a locally written record is still marked for
  // upload, or it was delivered after it was written.
  ghost predicate WriteKept(s: State, k: Key)
    requires k in s.edits && s.edits[k].Wrote?
  {
    var Wrote(c, since) := s.edits[k];
    && KeyOf(c) == k && since <= |s.delivered|
    && RowAt(s.table, k) == Some(c)
    && (s.table.rows[k].mark == Synced ==> DeliveredSince(s, c, since))
  }

  ghost predicate WritesKept(s: State) {
    && WellKeyed(s.table)
    && (forall k :: k in s.edits && s.edits[k].Wrote? ==> WriteKept(s, k))
    && (forall k :: k in s.edits && s.edits[k].Removed? ==> k !in s.table.rows)
  }

  lemma {:induction false} ApplyAllSpares(t: Table, ops: seq<DbOp>, k: Key)
    requires CanApplyAll(t, ops) && k !in Touched(ops)
    ensures RowAt(ApplyAll(t, ops), k) == RowAt(t, k)
    ensures k !in t.tombs ==> k !in ApplyAll(t, ops).tombs
    decreases |ops|
  {
    if |ops| > 0 {
      ApplyAllSpares(Apply(t, ops[0]), ops[1..], k);
    }
  }

  lemma {:induction false} ApplyAllKeepsKeys(t: Table, ops: seq<DbOp>)
    requires WellKeyed(t) && CanApplyAll(t, ops)
    ensures WellKeyed(ApplyAll(t, ops))
    decreases |ops|
  {
    if |ops| > 0 {
      ApplyAllKeepsKeys(Apply(t, ops[0]), ops[1..]);
    }
  }

  lemma DeliveredStays(s: State, s': State, c: Contact, since: nat)
    requires s.delivered <= s'.delivered && DeliveredSince(s, c, since)
    ensures DeliveredSince(s', c, since)
  {
    var i: nat :| since <= i && IsDelivery(s, c, i);
    assert IsDelivery(s', c, i);
  }

  // An acknowledged session delivers the pending write of a key.
  lemma AcknowledgedIsDelivered(s: State, e: Event, k: Key)
    requires WellKeyed(s.table) && e.Session? && e.acknowledged && Allowed(s, e)
    requires k in s.edits && s.edits[k].Wrote? && WriteKept(s, k)
    ensures DeliveredSince(Next(s, e), s.edits[k].contact, s.edits[k].since)
  {
    var Wrote(c, since) := s.edits[k];
    if s.table.rows[k].mark == Synced {
      DeliveredStays(s, Next(s, e), c, since);
    } else {
      PendingIsUploaded(s.table, e.uploads, k);
      UploadIsDelivery(s, e, Upload(if s.table.rows[k].mark == Used then InsertFlag else UpdateFlag, c));
    }
  }

  lemma UploadIsDelivery(s: State, e: Event, u: Upload)
    requires e.Session? && e.acknowledged && Allowed(s, e) && u in e.uploads && u.flag != DeleteFlag
    ensures forall since: nat :: since <= |s.delivered| ==> DeliveredSince(Next(s, e), u.contact, since)
  {
    var i :| 0 <= i < |e.uploads| && e.uploads[i] == u;
    assert IsDelivery(Next(s, e), u.contact, |s.delivered| + i);
  }

  lemma SessionKeepsWrite(s: State, e: Event, k: Key)
    requires WellKeyed(s.table) && k in s.edits && s.edits[k].Wrote? && WriteKept(s, k)
    requires e.Session? && Allowed(s, e) && k !in Touched(e.ops)
    ensures WriteKept(Next(s, e), k)
  {
    ApplyAllSpares(s.table, e.ops, k);
    if e.acknowledged {
      AcknowledgedIsDelivered(s, e, k);
    } else if s.table.rows[k].mark == Synced {
      DeliveredStays(s, Next(s, e), s.edits[k].contact, s.edits[k].since);
    }
  }

  lemma StepKeepsWrites(s: State, e: Event)
    requires WritesKept(s) && Allowed(s, e)
    ensures WritesKept(Next(s, e))
  {
    var s' := Next(s, e);
    if e.Session? {
      ApplyAllKeepsKeys(s.table, e.ops);
    }
    forall k | k in s'.edits
      ensures s'.edits[k].Wrote? ==> WriteKept(s', k)
      ensures s'.edits[k].Removed? ==> k !in s'.table.rows
    {
      if e.Session? && s.edits[k].Wrote? {
        assert WriteKept(s, k);
        SessionKeepsWrite(s, e, k);
      } else if e.Session? {
        assert RowAt(s.table, k) == None;
        ApplyAllSpares(s.table, e.ops, k);
      } else if k in s.edits && s.edits[k].Wrote? && s'.edits[k] == s.edits[k] {
        assert WriteKept(s, k);
        if DeliveredSince(s, s.edits[k].contact, s.edits[k].since) {
          DeliveredStays(s, s', s.edits[k].contact, s.edits[k].since);
        }
      }
    }
  }

  lemma {:induction false} RunKeepsWrites(states: seq<State>, events: seq<Event>, n: nat)
    requires IsRun(states, events) && n < |states|
    ensures WritesKept(states[n])
  {
    if n > 0 {
      RunKeepsWrites(states, events, n - 1);
      StepKeepsWrites(states[n - 1], events[n - 1]);
    }
  }

  /** In every run, with any session cut short anywhere: the mark of a local write
      is cleared only once that content was delivered after it was written; that
      the same content was delivered at some time before does not count. */
  lemma NoWriteLost(states: seq<State>, events: seq<Event>, i: nat, k: Key)
    requires IsRun(states, events) && i < |states|
    requires k in states[i].edits && states[i].edits[k].Wrote?
    ensures var s, Wrote(c, since) := states[i], states[i].edits[k];
      && KeyOf(c) == k && RowAt(s.table, k) == Some(c)
      && (s.table.rows[k].mark == Synced ==> DeliveredSince(s, c, since))
  {
    RunKeepsWrites(states, events, i);
    assert WriteKept(states[i], k);
  }

  /** `since` is what it is meant to be: a write notes what was delivered before it,
      and nothing but another edit of the key changes the note. */
  lemma {:induction false} SinceIsTheWrite(states: seq<State>, events: seq<Event>, i: nat, j: nat, c: Contact)
    requires IsRun(states, events) && i < j < |states|
    requires events[i] == LocalInsert(c) || events[i] == LocalUpdate(c)
    requires forall m :: i < m < j ==> events[m] != LocalDelete(KeyOf(c))
    requires forall m :: i < m < j && (events[m].LocalInsert? || events[m].LocalUpdate?) ==>
               KeyOf(events[m].contact) != KeyOf(c)
    ensures KeyOf(c) in states[j].edits ==> states[j].edits[KeyOf(c)] == Wrote(c, |states[i].delivered|)
  {
    if i + 1 < j {
      SinceIsTheWrite(states, events, i, j - 1, c);
    }
    assert states[j] == Next(states[j - 1], events[j - 1]);
  }

  /** A download takes the place of a local write only after that write was
      delivered, again after it was made. */
  lemma DownloadsReplaceDeliveredWrites(states: seq<State>, events: seq<Event>, i: nat, k: Key)
    requires IsRun(states, events) && i < |events| && events[i].Session?
    requires k in states[i].edits && states[i].edits[k].Wrote? && k !in states[i + 1].edits
    ensures DeliveredSince(states[i + 1], states[i].edits[k].contact, states[i].edits[k].since)
  {
    RunKeepsWrites(states, events, i);
    assert WriteKept(states[i], k);
    AcknowledgedIsDelivered(states[i], events[i], k);
  }

  // --------------------------------------------------------------------------
  // Agreement with the server, key by key

  // Between events, of one key: what the server holds is here or waits to be
  // deleted there, an unmarked row is at the server as it is here, and no live
  // row would be deleted there by a tombstone.
  predicate InStepAt(s: State, k: Key) {
    && (k in s.remote ==> k in s.table.rows || k in s.table.tombs)
    && (k in s.table.rows && s.table.rows[k].mark == Synced ==> At(s.remote, k) == RowAt(s.table, k))
    && (k in s.table.tombs ==> k !in s.table.rows)
  }

  /** While a key is in step, the messages of a readable upload leave it at the
      server as it is here. */
  lemma UploadsAgree(s: State, us: seq<Upload>, k: Key)
    requires WellKeyed(s.table) && InStepAt(s, k) && IsPendingList(s.table, us) && Readable(us)
    ensures Told(us).Some? && At(TellAll(s.remote, Told(us).value), k) == RowAt(s.table, k)
  {
    ToldExactly(s.table, us);
    UploadsTell(s.table, us, s.remote, k);
  }

  /** And a row that holds a delimiter never reaches the server as it is here,
      whatever the messages are read as. */
  lemma UnreadableRowsDisagree(s: State, us: seq<Upload>, k: Key)
    requires Told(us).Some? && k in s.table.rows && !AllClean(Layout(InsertFlag, s.table.rows[k].contact))
    requires At(s.remote, k) != RowAt(s.table, k)
    ensures At(TellAll(s.remote, Told(us).value), k) != RowAt(s.table, k)
  {
    var c := s.table.rows[k].contact;
    if At(TellAll(s.remote, Told(us).value), k) == Some(c) {
      ToldRowsAreClean(s.remote, Told(us).value, k, c);
    }
  }

  /** It happens in an acknowledged session that the server kept: the server has a
      shifted contact, and the flush leaves the local one unmarked. */
  lemma UnreadableRowIsFlushed(c: Contact, a: string, b: string) returns (s: State, e: Event)
    requires c.company == a + [FIELD_DEL] + b && Clean(a) && Clean(b) && c.address == ""
    requires Clean(c.id) && Clean(c.username) && Clean(c.name) && Clean(c.eMail)
    requires Clean(c.companyPhone) && Clean(c.mobilePhone) && FirstFits(InsertFlag, [c])
    ensures s == Next(START, LocalInsert(c)) && Allowed(s, e)
    ensures e == Session([Upload(InsertFlag, c)], true, true, [], [FlushMarks])
    ensures At(Next(s, e).remote, KeyOf(c)) == Some(Shifted(c, a, b))
    ensures Next(s, e).table.rows == map[KeyOf(c) := Row(Synced, c)] && Next(s, e).table.tombs == []
  {
    s := Next(START, LocalInsert(c));
    e := Session([Upload(InsertFlag, c)], true, true, [], [FlushMarks]);
    OneNewRow(s, c);
    ShiftedContact(c, a, b);
    OneFlush(s.table);
    TellOne(s.remote, Upload(InsertFlag, Shifted(c, a, b)));
  }

  lemma OneFlush(t: Table)
    ensures CanApplyAll(t, [FlushMarks]) && ApplyAll(t, [FlushMarks]) == Flush(t)
  {
    assert [FlushMarks][1..] == [];
  }

  lemma OneNewRow(s: State, c: Contact)
    requires s.table == Table(map[KeyOf(c) := Row(Used, c)], [])
    ensures IsPendingList(s.table, [Upload(InsertFlag, c)])
  {
    assert IsSelection(s.table, InsertFlag, [c]);
    assert IsSelection(s.table, UpdateFlag, []);
    assert IsSelection(s.table, DeleteFlag, []);
    assert [Upload(InsertFlag, c)] == Uploads(InsertFlag, [c]) + Uploads(UpdateFlag, []) + Uploads(DeleteFlag, []);
  }

  lemma TellOne(remote: Rows, u: Upload)
    ensures TellAll(remote, [u]) == Tell(remote, u)
  {
    assert [u][1..] == [];
  }

  // What the server holds of a key after a session.
  ghost function HeldAfter(s: State, e: Event, k: Key): Option<Contact>
    requires Allowed(s, e) && e.Session?
  {
    Said(e.sent, k, At(if e.kept then TellAll(s.remote, Told(e.uploads).value) else s.remote, k))
  }

  lemma HeldIsRemote(s: State, e: Event, k: Key)
    requires Allowed(s, e) && e.Session?
    ensures At(Next(s, e).remote, k) == HeldAfter(s, e, k)
  {
    ServeAt(if e.kept then TellAll(s.remote, Told(e.uploads).value) else s.remote, e.sent, k);
  }

  // The row of a key after a session is what the server's last record about it
  // says, or as before when there is none.
  ghost predicate RightAt(t: Table, sent: seq<Sent>, ops: seq<DbOp>, k: Key)
    requires CanApplyAll(t, ops)
  {
    RowAt(ApplyAll(t, ops), k) == Said(sent, k, RowAt(t, k))
  }

  /** A session whose uploads were readable and kept by the server leaves a key the
      same on both sides if and only if the client's row is as the server said. */
  lemma SessionAgreesExactly(s: State, e: Event, k: Key)
    requires WellKeyed(s.table) && InStepAt(s, k) && e.Session? && Allowed(s, e) && e.kept && Readable(e.uploads)
    ensures At(Next(s, e).remote, k) == HeldAfter(s, e, k) == Said(e.sent, k, RowAt(s.table, k))
    ensures At(Next(s, e).remote, k) == RowAt(Next(s, e).table, k) <==> RightAt(s.table, e.sent, e.ops, k)
  {
    UploadsAgree(s, e.uploads, k);
    HeldIsRemote(s, e, k);
  }

  /** In terms of the records: with `took` telling which of the sent records were
      applied, the two sides agree on a key if and only if the last record about
      it was applied or its row already was what that record says. */
  lemma MissedRecordsExactly(s: State, e: Event, took: seq<bool>, k: Key)
    requires WellKeyed(s.table) && InStepAt(s, k) && e.Session? && Allowed(s, e) && e.kept && Readable(e.uploads)
    requires |took| == |e.sent| && Heard(e.ops) == Applied(e.sent, took)
    ensures At(Next(s, e).remote, k) == RowAt(Next(s, e).table, k) <==>
            var i := LastAbout(e.sent, k);
            i < 0 || took[i] || RowAt(Next(s, e).table, k) == Word(e.sent[i])
  {
    SessionAgreesExactly(s, e, k);
    RightExactly(s.table, e.sent, took, e.ops, k);
  }

  // A change to the key is still to be uploaded.
  predicate Waits(t: Table, k: Key) {
    if k in t.rows then t.rows[k].mark != Synced else k in t.tombs
  }

  // A key is not used again while its deletion is pending; its row is not deleted
  // while marked as new although the server has it; and a session leaves the key
  // as the server holds it, or still to be uploaded, and no live row beside a
  // tombstone.
  ghost predicate HarmlessAt(s: State, e: Event, k: Key)
    requires Allowed(s, e)
  {
    match e
    case LocalInsert(c) => KeyOf(c) == k ==> k !in s.table.tombs
    case LocalUpdate(_) => true
    case LocalDelete(key) => key == k ==> !(s.table.rows[k].mark == Used && k in s.remote)
    case Session(_, _, _, _, ops) =>
      var t' := ApplyAll(s.table, ops);
      && (RowAt(t', k) == HeldAfter(s, e, k) || Waits(t', k))
      && !(k in t'.tombs && k in t'.rows)
  }

  /** These are exactly the events that keep a key in step. */
  lemma HarmlessExactly(s: State, e: Event, k: Key)
    requires WellKeyed(s.table) && InStepAt(s, k) && Allowed(s, e)
    ensures InStepAt(Next(s, e), k) <==> HarmlessAt(s, e, k)
  {
    if e.Session? {
      HeldIsRemote(s, e, k);
    }
  }

  /** A readable upload without an acknowledgement is harmless to every key, whether
      the server kept it or not. */
  lemma UnansweredIsHarmless(s: State, e: Event, k: Key)
    requires WellKeyed(s.table) && InStepAt(s, k) && e.Session? && Allowed(s, e) && !e.acknowledged
    requires e.kept ==> Readable(e.uploads)
    ensures HarmlessAt(s, e, k)
  {
    if e.kept {
      SessionAgreesExactly(s, e, k);
    }
  }

  /** A flushed session that the server kept and that left the key right is harmless
      to it. */
  lemma FlushedIsHarmless(s: State, e: Event, k: Key)
    requires WellKeyed(s.table) && InStepAt(s, k) && e.Session? && Allowed(s, e) && e.kept && Readable(e.uploads)
    requires Flushed(e.ops) && RightAt(s.table, e.sent, e.ops, k)
    ensures HarmlessAt(s, e, k)
  {
    SessionAgreesExactly(s, e, k);
    FlushedSessionSettles(s.table, e.ops);
  }

  ghost predicate HarmlessUpTo(states: seq<State>, events: seq<Event>, k: Key, n: nat) {
    && IsRun(states, events) && n <= |events|
    && forall i :: 0 <= i < n ==> HarmlessAt(states[i], events[i], k)
  }

  /** A key stays in step all along a run if and only if each event is harmless to
      it when it happens. */
  lemma {:induction false} HarmlessRunsStayInStep(states: seq<State>, events: seq<Event>, k: Key, n: nat)
    requires IsRun(states, events) && n <= |events|
    ensures HarmlessUpTo(states, events, k, n) <==> forall i :: 0 <= i <= n ==> InStepAt(states[i], k)
    ensures WellKeyed(states[n].table)
  {
    RunKeepsWrites(states, events, n);
    if n > 0 {
      HarmlessRunsStayInStep(states, events, k, n - 1);
      RunKeepsWrites(states, events, n - 1);
      assert states[n] == Next(states[n - 1], events[n - 1]);
      if InStepAt(states[n - 1], k) {
        HarmlessExactly(states[n - 1], events[n - 1], k);
      }
    }
  }

  lemma HarmlessRunInStep(states: seq<State>, events: seq<Event>, k: Key, n: nat)
    requires HarmlessUpTo(states, events, k, n)
    ensures WellKeyed(states[n].table) && InStepAt(states[n], k)
  {
    HarmlessRunsStayInStep(states, events, k, n);
  }

  /** Behind a run harmless for a key, a session with readable uploads that the
      server kept leaves the key the same on both sides if and only if its row is
      as the server said. */
  lemma SessionsConverge(states: seq<State>, events: seq<Event>, k: Key, i: nat)
    requires HarmlessUpTo(states, events, k, i) && i < |events| && events[i].Session? && events[i].kept
    requires Readable(events[i].uploads)
    ensures At(states[i + 1].remote, k) == RowAt(states[i + 1].table, k) <==>
            RightAt(states[i].table, events[i].sent, events[i].ops, k)
  {
    HarmlessRunInStep(states, events, k, i);
    SessionAgreesExactly(states[i], events[i], k);
  }

  /** Behind a run harmless for a key, a record deleted locally is gone at the
      server or its deletion is still marked for upload. */
  lemma NoDeleteLost(states: seq<State>, events: seq<Event>, k: Key, i: nat)
    requires HarmlessUpTo(states, events, k, i)
    requires k in states[i].edits && states[i].edits[k].Removed?
    ensures k !in states[i].table.rows
    ensures k in states[i].remote ==> k in states[i].table.tombs
  {
    RunKeepsWrites(states, events, i);
    HarmlessRunInStep(states, events, k, i);
  }

  /** An acknowledgement is written before the server commits. When the commit then
      fails and the client flushes, nothing is marked any more, and the two sides
      agree on a key only if they did before the session. */
  lemma AcknowledgedButNotKept(s: State, us: seq<Upload>, k: Key)
    requires InStepAt(s, k) && IsPendingList(s.table, us)
    ensures var e := Session(us, true, false, [], [FlushMarks]);
      && Allowed(s, e)
      && Next(s, e).table.tombs == []
      && (k in s.table.rows ==> k in Next(s, e).table.rows && Next(s, e).table.rows[k].mark == Synced)
      && (At(Next(s, e).remote, k) == RowAt(Next(s, e).table, k) <==> At(s.remote, k) == RowAt(s.table, k))
  {
    assert [FlushMarks][1..] == [];
    assert ApplyAll(s.table, [FlushMarks]) == Flush(s.table);
  }

  // --------------------------------------------------------------------------
  // Exactly when a deletion is lost

  // The server holds the record, it is not here, and nothing is marked for upload.
  predicate Stranded(s: State, k: Key) {
    k in s.remote && k !in s.table.rows && k !in s.table.tombs
  }

  /** A local deletion strands the record at the server exactly when the row was
      still marked as new although the server has it. */
  lemma DeleteStrandsExactly(s: State, k: Key)
    requires InStepAt(s, k) && Allowed(s, LocalDelete(k))
    ensures Stranded(Next(s, LocalDelete(k)), k) <==> s.table.rows[k].mark == Used && k in s.remote
  {
  }

  /** A stranded record stays stranded through every later event that neither
      inserts its key, nor downloads it, nor finds the server sending word of it,
      as long as what the server keeps is readable. */
  lemma StrandedStays(s: State, e: Event, k: Key)
    requires WellKeyed(s.table) && Stranded(s, k) && Allowed(s, e)
    requires e.LocalInsert? ==> KeyOf(e.contact) != k
    requires e.Session? ==> k !in Touched(e.ops) && forall r :: r in e.sent ==> About(r) != k
    requires e.Session? && e.kept ==> Readable(e.uploads)
    ensures Stranded(Next(s, e), k)
  {
    if e.Session? {
      ApplyAllSpares(s.table, e.ops, k);
      ToldExactly(s.table, e.uploads);
      UploadsTell(s.table, e.uploads, s.remote, k);
      HeldIsRemote(s, e, k);
      SaidNothing(e.sent, k, At(if e.kept then TellAll(s.remote, e.uploads) else s.remote, k));
    }
  }

  /** Such runs exist, in two ways: a new record is uploaded and kept, the session
      ends before its acknowledgement arrives or before a flush, and the record is
      deleted locally. */
  lemma UnflushedSessionStrandsADelete(c: Contact, acknowledged: bool)
    returns (states: seq<State>, events: seq<Event>)
    requires AllClean(Layout(InsertFlag, c)) && FirstFits(InsertFlag, [c])
    ensures IsRun(states, events) && |states| == 4 && Stranded(states[3], KeyOf(c))
    ensures events[1] == Session([Upload(InsertFlag, c)], acknowledged, true, [], [])
    ensures events[2] == LocalDelete(KeyOf(c))
  {
    var s1, e := Next(START, LocalInsert(c)), Session([Upload(InsertFlag, c)], acknowledged, true, [], []);
    OneNewRow(s1, c);
    OneIsReadable(c);
    ToldExactly(s1.table, e.uploads);
    TellOne(s1.remote, e.uploads[0]);
    events, states := ThreeEvents(LocalInsert(c), e, LocalDelete(KeyOf(c)));
  }

  lemma ThreeEvents(a: Event, b: Event, c: Event) returns (events: seq<Event>, states: seq<State>)
    requires Allowed(START, a) && Allowed(Next(START, a), b) && Allowed(Next(Next(START, a), b), c)
    ensures |events| == 3 && events[0] == a && events[1] == b && events[2] == c
    ensures IsRun(states, events) && states[3] == Next(Next(Next(START, a), b), c)
  {
    events := [a, b, c];
    states := [START, Next(START, a), Next(Next(START, a), b), Next(Next(Next(START, a), b), c)];
  }

  lemma OneIsReadable(c: Contact)
    requires AllClean(Layout(InsertFlag, c)) && FirstFits(InsertFlag, [c])
    ensures Readable([Upload(InsertFlag, c)])
  {
    WithOne(c);
  }

  // --------------------------------------------------------------------------
  // Where the two flush placements keep runs harmless

  predicate UpsertsFirst(ops: seq<DbOp>, n: nat) {
    && n <= |ops|
    && (forall i :: 0 <= i < n ==> ops[i].Upsert?)
    && (forall i :: n <= i < |ops| ==> !ops[i].Upsert?)
  }

  // Flushed right after the uploads; then upserts; then deletes and flushes.
  ghost predicate FlushedEarly(ops: seq<DbOp>) {
    |ops| > 0 && ops[0] == FlushMarks && exists n: nat :: UpsertsFirst(ops[1..], n)
  }

  // Flushed after everything else.
  predicate FlushedLate(ops: seq<DbOp>) {
    |ops| > 0 && ops[|ops| - 1] == FlushMarks
  }

  ghost predicate Flushed(ops: seq<DbOp>) { FlushedEarly(ops) || FlushedLate(ops) }

  // No row is marked as new, and no live row has a tombstone.
  predicate Settled(t: Table) {
    (forall k :: k in t.rows ==> t.rows[k].mark != Used) && (forall k :: k in t.tombs ==> k !in t.rows)
  }

  lemma {:induction false} RemovesKeepSettled(t: Table, ops: seq<DbOp>)
    requires CanApplyAll(t, ops) && Settled(t)
    requires forall i :: 0 <= i < |ops| ==> !ops[i].Upsert?
    ensures Settled(ApplyAll(t, ops))
    decreases |ops|
  {
    if |ops| > 0 {
      RemovesKeepSettled(Apply(t, ops[0]), ops[1..]);
    }
  }

  lemma {:induction false} UpsertsThenRemovesSettle(t: Table, ops: seq<DbOp>, n: nat)
    requires CanApplyAll(t, ops) && Settled(t) && t.tombs == [] && UpsertsFirst(ops, n)
    ensures Settled(ApplyAll(t, ops))
    decreases |ops|
  {
    if n == 0 {
      RemovesKeepSettled(t, ops);
    } else {
      UpsertsThenRemovesSettle(Apply(t, ops[0]), ops[1..], n - 1);
    }
  }

  lemma {:induction false} LastFlushSettles(t: Table, ops: seq<DbOp>)
    requires CanApplyAll(t, ops) && FlushedLate(ops)
    ensures Settled(ApplyAll(t, ops))
    decreases |ops|
  {
    if |ops| > 1 {
      LastFlushSettles(Apply(t, ops[0]), ops[1..]);
    } else {
      assert ApplyAll(t, ops) == Flush(t);
    }
  }

  lemma FlushedSessionSettles(t: Table, ops: seq<DbOp>)
    requires CanApplyAll(t, ops) && Flushed(ops)
    ensures Settled(ApplyAll(t, ops))
  {
    if FlushedEarly(ops) {
      var n: nat :| UpsertsFirst(ops[1..], n);
      UpsertsThenRemovesSettle(Flush(t), ops[1..], n);
    } else {
      LastFlushSettles(t, ops);
    }
  }

  // The session uploaded the key as new, the server kept it and did not drop it
  // since, and the row is still marked as new: the session was not acknowledged, or
  // it did not come to a flush, nor to an upsert that changed the row.
  ghost predicate LeavesNew(s: State, e: Event, k: Key)
    requires Allowed(s, e)
  {
    && e.Session? && e.kept && UploadedAsNew(e.uploads, k)
    && k in ApplyAll(s.table, e.ops).rows && ApplyAll(s.table, e.ops).rows[k].mark == Used
    && Said(e.sent, k, RowAt(s.table, k)).Some?
  }

  ghost predicate UploadedAsNew(us: seq<Upload>, k: Key) {
    exists u :: u in us && u.flag == InsertFlag && KeyOf(u.contact) == k
  }

  // Some session left the key so, and no session was acknowledged since.
  ghost predicate Doubtful(states: seq<State>, events: seq<Event>, n: nat, k: Key)
    requires IsRun(states, events) && n <= |events|
  {
    exists j: nat :: DoubtfulSince(states, events, n, k, j)
  }

  ghost predicate DoubtfulSince(states: seq<State>, events: seq<Event>, n: nat, k: Key, j: nat)
    requires IsRun(states, events) && n <= |events|
  {
    j < n && LeavesNew(states[j], events[j], k) && NoneSince(events, j, n)
  }

  predicate Answered(e: Event) { e.Session? && e.acknowledged }

  predicate NoneSince(events: seq<Event>, j: nat, n: nat)
    requires n <= |events|
  {
    forall m :: j < m < n ==> !Answered(events[m])
  }

  // What is asked of a run besides its deletions: the key is not used again while
  // its deletion is pending; the server keeps what it acknowledges, and reads what
  // it keeps; and an acknowledged session leaves the key right or waiting.
  ghost predicate CarefulRun(states: seq<State>, events: seq<Event>, k: Key, n: nat) {
    && IsRun(states, events) && n <= |events|
    && (forall i :: 0 <= i < n && events[i].LocalInsert? && KeyOf(events[i].contact) == k ==>
          k !in states[i].table.tombs)
    && (forall i :: 0 <= i < n && events[i].Session? ==> Careful(events[i]))
    && (forall i :: 0 <= i < n && events[i].Session? && events[i].acknowledged ==>
          HarmlessAt(states[i], events[i], k))
  }

  ghost predicate Careful(e: Event)
    requires e.Session?
  {
    (e.acknowledged ==> e.kept) && (e.kept ==> Readable(e.uploads))
  }

  // A row is marked as new although the server has it exactly in doubt.
  predicate NewRowsInDoubt(s: State, doubtful: bool, k: Key) {
    doubtful <==> k in s.table.rows && s.table.rows[k].mark == Used && k in s.remote
  }

  lemma DoubtStep(states: seq<State>, events: seq<Event>, n: nat, k: Key)
    requires IsRun(states, events) && n < |events|
    ensures Doubtful(states, events, n + 1, k) <==>
            || LeavesNew(states[n], events[n], k)
            || (Doubtful(states, events, n, k) && !Answered(events[n]))
  {
    var n' := n + 1;
    forall j: nat
      ensures DoubtfulSince(states, events, n', k, j) <==>
              || (j == n && LeavesNew(states[n], events[n], k))
              || (DoubtfulSince(states, events, n, k, j) && !Answered(events[n]))
    {
      DoubtOfOne(states, events, n, k, j);
    }
    assert LeavesNew(states[n], events[n], k) ==> DoubtfulSince(states, events, n', k, n);
  }

  lemma DoubtOfOne(states: seq<State>, events: seq<Event>, n: nat, k: Key, j: nat)
    requires IsRun(states, events) && n < |events|
    ensures DoubtfulSince(states, events, n + 1, k, j) <==>
            || (j == n && LeavesNew(states[n], events[n], k))
            || (DoubtfulSince(states, events, n, k, j) && !Answered(events[n]))
  {
    assert NoneSince(events, j, n + 1) <==> j >= n || (NoneSince(events, j, n) && !Answered(events[n]));
  }

  // No operation of a session marks a row as new.
  lemma {:induction false} NewWasNew(t: Table, ops: seq<DbOp>, k: Key)
    requires CanApplyAll(t, ops) && k in ApplyAll(t, ops).rows && ApplyAll(t, ops).rows[k].mark == Used
    ensures k in t.rows && t.rows[k].mark == Used
    decreases |ops|
  {
    if |ops| > 0 {
      NewWasNew(Apply(t, ops[0]), ops[1..], k);
    }
  }

  lemma NewIsUploadedAsNew(t: Table, us: seq<Upload>, k: Key)
    requires WellKeyed(t) && IsPendingList(t, us)
    ensures UploadedAsNew(us, k) <==> k in t.rows && t.rows[k].mark == Used
  {
    PendingIsUploaded(t, us, k);
    if u :| u in us && u.flag == InsertFlag && KeyOf(u.contact) == k {
      assert u == Upload(InsertFlag, u.contact);
    }
  }

  lemma SessionKeepsDoubt(s: State, e: Event, k: Key, before: bool)
    requires WellKeyed(s.table) && InStepAt(s, k) && NewRowsInDoubt(s, before, k)
    requires e.Session? && Allowed(s, e) && Careful(e)
    ensures NewRowsInDoubt(Next(s, e), LeavesNew(s, e, k) || (before && !e.acknowledged), k)
  {
    NewIsUploadedAsNew(s.table, e.uploads, k);
    HeldIsRemote(s, e, k);
    if e.kept {
      SessionAgreesExactly(s, e, k);
    }
    var t' := ApplyAll(s.table, e.ops);
    if k in t'.rows && t'.rows[k].mark == Used {
      NewWasNew(s.table, e.ops, k);
    }
  }

  lemma StepKeepsDoubt(s: State, e: Event, k: Key, before: bool)
    requires WellKeyed(s.table) && InStepAt(s, k) && NewRowsInDoubt(s, before, k)
    requires Allowed(s, e) && HarmlessAt(s, e, k) && (e.Session? ==> Careful(e))
    ensures NewRowsInDoubt(Next(s, e), LeavesNew(s, e, k) || (before && !Answered(e)), k)
  {
    if e.Session? {
      SessionKeepsDoubt(s, e, k, before);
    }
  }

  lemma {:induction false} RunKeepsDoubt(states: seq<State>, events: seq<Event>, k: Key, n: nat)
    requires CarefulRun(states, events, k, n) && HarmlessUpTo(states, events, k, n)
    ensures NewRowsInDoubt(states[n], Doubtful(states, events, n, k), k)
  {
    if n > 0 {
      var i := n - 1;
      RunKeepsDoubt(states, events, k, i);
      HarmlessRunInStep(states, events, k, i);
      DoubtStep(states, events, i, k);
      assert states[n] == Next(states[i], events[i]);
      StepKeepsDoubt(states[i], events[i], k, Doubtful(states, events, i, k));
    }
  }

  /** A careful run, flushed or not and cut short anywhere, is harmless for a key if
      and only if the key is never deleted in doubt: after a session that left its
      row marked as new although the server has it, before the next one that is
      acknowledged. */
  lemma DeletionsDecide(states: seq<State>, events: seq<Event>, k: Key, n: nat)
    requires CarefulRun(states, events, k, n)
    ensures HarmlessUpTo(states, events, k, n) <==>
            forall i :: 0 <= i < n && events[i] == LocalDelete(k) ==> !Doubtful(states, events, i, k)
  {
    if HarmlessUpTo(states, events, k, n) {
      forall i | 0 <= i < n && events[i] == LocalDelete(k)
        ensures !Doubtful(states, events, i, k)
      {
        CarefulStep(states, events, k, n, i);
      }
    } else {
      var i := FirstHarm(states, events, k, n);
      CarefulStep(states, events, k, n, i);
    }
  }

  lemma CarefulStep(states: seq<State>, events: seq<Event>, k: Key, n: nat, i: nat)
    requires CarefulRun(states, events, k, n) && i < n && HarmlessUpTo(states, events, k, i)
    ensures HarmlessAt(states[i], events[i], k) <==>
            (events[i] == LocalDelete(k) ==> !Doubtful(states, events, i, k))
  {
    HarmlessRunInStep(states, events, k, i);
    if events[i].Session? {
      if !events[i].acknowledged {
        UnansweredIsHarmless(states[i], events[i], k);
      }
    } else {
      RunKeepsDoubt(states, events, k, i);
    }
  }

  /** And a deletion in doubt does strand the record. */
  lemma DeleteInDoubtStrands(states: seq<State>, events: seq<Event>, k: Key, i: nat)
    requires CarefulRun(states, events, k, i) && HarmlessUpTo(states, events, k, i)
    requires i < |events| && events[i] == LocalDelete(k)
    ensures Stranded(states[i + 1], k) <==> Doubtful(states, events, i, k)
  {
    RunKeepsDoubt(states, events, k, i);
    HarmlessRunInStep(states, events, k, i);
    DeleteStrandsExactly(states[i], k);
  }

  // What makes a run careful: acknowledged sessions are kept, right and flushed, and
  // the key is not used again while its deletion is pending.
  ghost predicate FlushedRun(states: seq<State>, events: seq<Event>, k: Key, n: nat) {
    && IsRun(states, events) && n <= |events|
    && (forall i :: 0 <= i < n && events[i].LocalInsert? && KeyOf(events[i].contact) == k ==>
          k !in states[i].table.tombs)
    && (forall i :: 0 <= i < n && events[i].Session? ==> Careful(events[i]))
    && (forall i :: 0 <= i < n && events[i].Session? && events[i].acknowledged ==>
          RightAt(states[i].table, events[i].sent, events[i].ops, k) && Flushed(events[i].ops))
  }

  /** Where both flushes are reached and nothing is missed, only a lost
      acknowledgement casts doubt: the run is harmless for a key if and only if the
      key is never deleted between an upload as new that was kept and not
      acknowledged and the next session that is. */
  lemma FlushedRunsAreHarmless(states: seq<State>, events: seq<Event>, k: Key, n: nat)
    requires FlushedRun(states, events, k, n)
    ensures HarmlessUpTo(states, events, k, n) <==>
            forall i :: 0 <= i < n && events[i] == LocalDelete(k) ==> !UnansweredAsNew(events, i, k)
  {
    if HarmlessUpTo(states, events, k, n) {
      forall i | 0 <= i < n && events[i] == LocalDelete(k)
        ensures !UnansweredAsNew(events, i, k)
      {
        FlushedStep(states, events, k, n, i);
      }
    } else {
      var i := FirstHarm(states, events, k, n);
      FlushedStep(states, events, k, n, i);
    }
  }

  lemma {:induction false} FirstHarm(states: seq<State>, events: seq<Event>, k: Key, n: nat) returns (i: nat)
    requires IsRun(states, events) && n <= |events| && !HarmlessUpTo(states, events, k, n)
    ensures i < n && HarmlessUpTo(states, events, k, i) && !HarmlessAt(states[i], events[i], k)
  {
    if HarmlessUpTo(states, events, k, n - 1) {
      i := n - 1;
    } else {
      i := FirstHarm(states, events, k, n - 1);
    }
  }

  lemma FlushedStep(states: seq<State>, events: seq<Event>, k: Key, n: nat, i: nat)
    requires FlushedRun(states, events, k, n) && i < n && HarmlessUpTo(states, events, k, i)
    ensures HarmlessAt(states[i], events[i], k) <==> (events[i] == LocalDelete(k) ==> !UnansweredAsNew(events, i, k))
  {
    var s, e := states[i], events[i];
    HarmlessRunInStep(states, events, k, i);
    if e.Session? && e.acknowledged {
      FlushedIsHarmless(s, e, k);
    } else if e.Session? {
      UnansweredIsHarmless(s, e, k);
    } else {
      RunKeepsDoubt(states, events, k, i);
      FlushedDoubt(states, events, k, i);
    }
  }

  ghost predicate UnansweredAsNew(events: seq<Event>, n: nat, k: Key)
    requires n <= |events|
  {
    exists j: nat :: UnansweredSince(events, n, k, j)
  }

  ghost predicate UnansweredSince(events: seq<Event>, n: nat, k: Key, j: nat)
    requires n <= |events|
  {
    && j < n && events[j].Session? && !events[j].acknowledged && events[j].kept
    && UploadedAsNew(events[j].uploads, k) && NoneSince(events, j, n)
  }

  lemma FlushedDoubt(states: seq<State>, events: seq<Event>, k: Key, n: nat)
    requires FlushedRun(states, events, k, n)
    ensures Doubtful(states, events, n, k) <==> UnansweredAsNew(events, n, k)
  {
    forall j: nat | j < n
      ensures DoubtfulSince(states, events, n, k, j) <==> UnansweredSince(events, n, k, j)
    {
      FlushedLeavesNew(states, events, k, n, j);
    }
  }

  lemma FlushedLeavesNew(states: seq<State>, events: seq<Event>, k: Key, n: nat, j: nat)
    requires FlushedRun(states, events, k, n) && j < n
    ensures LeavesNew(states[j], events[j], k) <==>
            var e := events[j];
            e.Session? && !e.acknowledged && e.kept && UploadedAsNew(e.uploads, k)
  {
    var s, e := states[j], events[j];
    RunKeepsWrites(states, events, j);
    if e.Session? && e.acknowledged {
      FlushedSessionSettles(s.table, e.ops);
    } else if e.Session? {
      NewIsUploadedAsNew(s.table, e.uploads, k);
    }
  }

  // No state up to n had a row under this key, and no session before n touched it.
  ghost predicate NeverUsed(states: seq<State>, events: seq<Event>, n: nat, k: Key)
    requires |states| == |events| + 1 && n < |states|
  {
    && (forall j :: 0 <= j <= n ==> k !in states[j].table.rows)
    && (forall j :: 0 <= j < n && events[j].Session? ==> k !in Touched(events[j].ops))
  }

  lemma {:induction false} NeverUsedHasNoTomb(states: seq<State>, events: seq<Event>, n: nat, k: Key)
    requires IsRun(states, events) && n < |states| && NeverUsed(states, events, n, k)
    ensures k !in states[n].table.tombs
  {
    if n > 0 {
      NeverUsedHasNoTomb(states, events, n - 1, k);
      var e := events[n - 1];
      assert states[n] == Next(states[n - 1], e);
      if e.Session? {
        ApplyAllSpares(states[n - 1].table, e.ops, k);
      }
    }
  }

  // The key is inserted only where it was never used before.
  ghost predicate InsertsAreNew(states: seq<State>, events: seq<Event>, k: Key, n: nat)
    requires |states| == |events| + 1 && n <= |events|
  {
    forall i :: 0 <= i < n && events[i].LocalInsert? && KeyOf(events[i].contact) == k ==>
      NeverUsed(states, events, i, k)
  }

  /** Inserting only under keys never used before takes the place of the condition
      on pending deletions. */
  lemma NewKeysMakeRunsHarmless(states: seq<State>, events: seq<Event>, k: Key, n: nat)
    requires IsRun(states, events) && n <= |events| && InsertsAreNew(states, events, k, n)
    requires forall i :: 0 <= i < n && events[i].Session? ==> Careful(events[i])
    requires forall i :: 0 <= i < n && events[i].Session? && events[i].acknowledged ==>
               HarmlessAt(states[i], events[i], k)
    ensures HarmlessUpTo(states, events, k, n) <==>
            forall i :: 0 <= i < n && events[i] == LocalDelete(k) ==> !Doubtful(states, events, i, k)
  {
    forall i | 0 <= i < n && events[i].LocalInsert? && KeyOf(events[i].contact) == k
      ensures k !in states[i].table.tombs
    {
      NeverUsedHasNoTomb(states, events, i, k);
    }
    DeletionsDecide(states, events, k, n);
  }
}
