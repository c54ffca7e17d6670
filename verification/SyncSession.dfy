/**
  The sync session of the demo clients, statement by statement. Every call into
  the native client library and every statement sent to the local database takes
  its answer from a script, so that any of them may fail; received items come
  from an inbox. Both placements of the flush are modelled.
*/
module SyncSession {
  import opened RecordCodec
  import opened UploadBatches
  import opened MsyncTable
  import opened UploadTexts
  import opened DownloadStreams
  import opened SessionAgreement
  import SyncRuns
  import opened ServerRows
  import opened ServerReading

  const NACK_FLAG := 'N' as int
  const ACK_FLAG := 'A' as int
  const UPGRADE_FLAG := 'V' as int
  const RET_NEED_UPGRADE := 1

  // How far the uploads of a session came: not all handed over; handed over and
  // the server asked to keep them, with no answer; kept as far as the client knows.
  datatype Handover = Partial | Unanswered(uploads: seq<Upload>) | Acknowledged(uploads: seq<Upload>)

  lemma OneOperation(t: Table, op: DbOp)
    ensures CanApplyAll(t, [op]) <==> CanApply(t, op)
    ensures CanApply(t, op) ==> ApplyAll(t, [op]) == Apply(t, op)
  {
    assert [op][1..] == [];
  }

  lemma OneMoreOperation(t: Table, done: seq<DbOp>, op: DbOp)
    requires CanApplyAll(t, done) && CanApply(ApplyAll(t, done), op)
    ensures CanApplyAll(t, done + [op]) && ApplyAll(t, done + [op]) == Apply(ApplyAll(t, done), op)
  {
    ApplyAllAppend(t, done, [op]);
    OneOperation(ApplyAll(t, done), op);
  }

  lemma ApplyKeepsKeys(t: Table, op: DbOp)
    requires WellKeyed(t) && CanApply(t, op)
    ensures WellKeyed(Apply(t, op))
  {
  }

  function TombRecords(tombs: seq<Key>): (cs: seq<Contact>)
    ensures |cs| == |tombs| && forall i :: 0 <= i < |tombs| ==> cs[i] == Tombstone(tombs[i])
    ensures forall c :: c in cs <==> KeyOf(c) in tombs && c == Tombstone(KeyOf(c))
  {
    if |tombs| == 0 then [] else [Tombstone(tombs[0])] + TombRecords(tombs[1..])
  }

  // The course of a session that did not get to its downloads.
  const NOTHING: Course := Course([], [], [], [], [], [], [], [])

  // `more` turned table t into this one, behind the operations `before`.
  predicate Did(t: Table, more: seq<DbOp>, table: Table, before: seq<DbOp>, ops: seq<DbOp>) {
    ops == before + more && CanApplyAll(t, more) && ApplyAll(t, more) == table
  }

  // The first records of a delete batch met these fates, by these operations.
  predicate Deleting(t: Table, names: seq<Option<Key>>, fates: seq<Fate>, done: seq<DbOp>, table: Table,
                     before: seq<DbOp>, ops: seq<DbOp>) {
    ops == before + done && Deleted(t, names, fates, done) && table == TableAfter(t, names, fates, |fates|)
  }

  lemma OneMoreUpsert(t: Table, done: seq<DbOp>, table: Table, before: seq<DbOp>, ops: seq<DbOp>,
                      records: seq<string>, op: DbOp)
    requires Did(t, done, table, before, ops) && UpsertsOf(records, done) && |done| < |records|
    requires op.Upsert? && Parsed(records[|done|]) == Some(op.contact) && CanApply(table, op)
    ensures Did(t, done + [op], Apply(table, op), before, ops + [op]) && UpsertsOf(records, done + [op])
  {
    OneMoreOperation(t, done, op);
    ConcatAssociates(before, done, [op]);
  }

  lemma OneMoreDeleted(t: Table, names: seq<Option<Key>>, fates: seq<Fate>, done: seq<DbOp>, table: Table,
                       before: seq<DbOp>, ops: seq<DbOp>, f: Fate)
    requires Deleting(t, names, fates, done, table, before, ops) && |fates| < |names|
    requires FateFits(table, names[|fates|], f)
    ensures var name := names[|fates|];
            Deleting(t, names, fates + [f], done + RemoveOf(name, f), AfterOne(table, name, f), before,
                     ops + RemoveOf(name, f))
    ensures forall client :: Score(client, fates + [f]) == Score(client, fates) + Points(client, f)
  {
    OneMoreFate(t, names, fates, done, f);
    ConcatAssociates(before, done, RemoveOf(names[|fates|], f));
  }

  predicate Sound(opening: Table, ops: seq<DbOp>, table: Table) {
    WellKeyed(table) && CanApplyAll(opening, ops) && ApplyAll(opening, ops) == table
  }

  // What an upload has sent, behind what had been sent before it.
  ghost predicate Posted(packets: seq<Packet>, contents: seq<seq<Contact>>, flag: Flag, before: seq<Packet>,
                       kept: seq<seq<Contact>>, s: Sending)
  {
    && AllPacked(packets, contents)
    && packets == before + PacketsOf(flag, s.texts) && contents == kept + s.groups
  }

  // The messages are those of the uploads handed over, and hold every record.
  ghost predicate HandedOver(h: Handover, before: Table, packets: seq<Packet>, contents: seq<seq<Contact>>) {
    h.Partial? ||
    (&& IsPendingList(before, h.uploads) && packets == Messages(h.uploads)
     && forall u :: u in h.uploads ==> Carried(packets, contents, u))
  }

  // A session begun with table `before` is of use to the client only when its
  // uploads were acknowledged; otherwise nothing changed.
  predicate Left(h: Handover, before: Table, table: Table, opening: Table, ops: seq<DbOp>,
                 told: seq<Upload>, delivered: seq<Upload>) {
    && opening == before
    && delivered == (if h.Acknowledged? then told + h.uploads else told)
    && (h.Acknowledged? || (table == before && ops == []))
  }

  // What a session did and sent, and what counts as delivered after it.
  datatype Trace = Trace(
    opening: Table,
    ops: seq<DbOp>,
    table: Table,
    packets: seq<Packet>,
    contents: seq<seq<Contact>>,
    delivered: seq<Upload>)

  ghost predicate IsSession(tr: Trace, before: Table, told: seq<Upload>, h: Handover) {
    && Sound(tr.opening, tr.ops, tr.table) && AllPacked(tr.packets, tr.contents)
    && HandedOver(h, before, tr.packets, tr.contents)
    && Left(h, before, tr.table, tr.opening, tr.ops, told, tr.delivered)
  }

  class SyncClient {
    // which of the two programs this is
    const client: Client
    var table: Table
    var answers: seq<int>
    var inbox: seq<Received>
    // the messages the native library accepted in this session
    var packets: seq<Packet>
    // the records inside each of them
    ghost var contents: seq<seq<Contact>>
    // the records of all sessions whose UploadOK succeeded
    ghost var delivered: seq<Upload>
    // what this session did to the table, which was `opening` at its start
    ghost var opening: Table
    ghost var ops: seq<DbOp>
    ghost var failedFlushes: nat

    ghost predicate Valid()
      reads this`table, this`opening, this`ops, this`packets, this`contents
    {
      Sound(opening, ops, table) && AllPacked(packets, contents)
    }

    constructor (client: Client, answers: seq<int>, inbox: seq<Received>)
      ensures this.client == client
      ensures Valid() && table == Table(map[], []) && delivered == [] && packets == [] && ops == []
    {
      this.client := client;
      table, opening := Table(map[], []), Table(map[], []);
      this.answers, this.inbox := answers, inbox;
      packets, contents, delivered, ops, failedFlushes := [], [], [], [], 0;
    }

    method Ask() returns (a: int)
      modifies this`answers
      ensures a == (if |old(answers)| > 0 then old(answers)[0] else -1)
      ensures answers == if |old(answers)| > 0 then old(answers)[1..] else []
    {
      a := -1;
      if |answers| > 0 {
        a, answers := answers[0], answers[1..];
      }
    }

    // The next item, which the client sees as null unless it is a message.
    method Receive() returns (d: Received)
      modifies this`inbox
      ensures Receives(old(inbox), d, inbox)
    {
      d := Broken;
      if |inbox| > 0 {
        d, inbox := inbox[0], inbox[1..];
      }
    }

    // ------------------------------------------------------------------------
    // Uploading

    method SelectRecords(flag: Flag) returns (n: int, cs: seq<Contact>)
      requires Valid()
      modifies this`answers
      ensures n == -1 || (n == |cs| && IsSelection(table, flag, cs))
    {
      var a := Ask();
      if a < 0 {
        return -1, [];
      }
      if flag == DeleteFlag {
        cs := TombRecords(table.tombs);
      } else {
        cs := SelectRows(flag);
      }
      n := |cs|;
    }

    // The rows with the mark of this upload, in any order.
    method SelectRows(flag: Flag) returns (cs: seq<Contact>)
      requires WellKeyed(table) && flag != DeleteFlag
      ensures IsSelection(table, flag, cs)
    {
      cs := [];
      var mark := if flag == InsertFlag then Used else Update;
      var todo := table.rows.Keys;
      while todo != {}
        invariant todo <= table.rows.Keys
        invariant forall c :: c in cs <==> Selects(table, flag, c) && KeyOf(c) !in todo
        invariant forall i, j :: 0 <= i < j < |cs| ==> KeyOf(cs[i]) != KeyOf(cs[j])
        decreases |todo|
      {
        var k :| k in todo;
        if table.rows[k].mark == mark {
          assert forall i :: 0 <= i < |cs| ==> cs[i] in cs;
          cs := cs + [table.rows[k].contact];
        }
        todo := todo - {k};
      }
    }

    method Send(flag: Flag, text: string, ghost group: seq<Contact>) returns (a: int)
      requires AllPacked(packets, contents) && text == Flatten(Encodings(flag, group))
      modifies this`answers, this`packets, this`contents
      ensures AllPacked(packets, contents)
      ensures packets == if a < 0 then old(packets) else old(packets) + [Packet(flag, text)]
      ensures contents == if a < 0 then old(contents) else old(contents) + [group]
    {
      a := Ask();
      if a >= 0 {
        OneMorePacked(packets, contents, flag, text, group);
        packets := packets + [Packet(flag, text)];
        contents := contents + [group];
      }
    }

    // Sends the open batch and notes it behind the ones sent before.
    method SendOpen(flag: Flag, dataStr: string, ghost before: seq<Packet>, ghost kept: seq<seq<Contact>>,
                    ghost s: Sending, ghost open: seq<Contact>)
      returns (a: int)
      requires Posted(packets, contents, flag, before, kept, s) && dataStr == Flatten(Encodings(flag, s.open))
      modifies this`answers, this`packets, this`contents
      ensures Posted(packets, contents, flag, before, kept,
                     if a < 0 then s else Sending(open, s.texts + [dataStr], s.groups + [s.open]))
    {
      a := Send(flag, dataStr, s.open);
      PacketsSnoc(before, flag, s.texts, dataStr);
      ConcatAssociates(kept, s.groups, [s.open]);
    }

    // The loop over the selected rows.
    method UploadRows(flag: Flag, rows: seq<Contact>) returns (r: int, ghost s: Sending)
      requires AllPacked(packets, contents) && |rows| > 0
      modifies this`answers, this`packets, this`contents
      ensures Posted(packets, contents, flag, old(packets), old(contents), s)
      ensures r in {0, -2, -3, -4}
      ensures s.texts <= Texts(Batches([], Encodings(flag, rows)))
      ensures r == 0 ==> s.texts == Texts(Batches([], Encodings(flag, rows))) && Flatten(s.groups) == rows
    {
      ghost var before, kept := packets, contents;
      r, s := 0, Sending([], [], []);
      var dataStr := "";
      var i := 0;
      ProgressStarts(flag, rows);
      NothingSent(packets, contents, flag);
      while i < |rows|
        invariant 0 <= i <= |rows| && r == 0
        invariant Progress(flag, rows, i, dataStr, s) && Posted(packets, contents, flag, before, kept, s)
      {
        r, dataStr, s := UploadRow(flag, rows, i, dataStr, before, kept, s);
        if r < 0 {
          return;
        }
        i := i + 1;
      }
      r, s := SendRest(flag, rows, dataStr, before, kept, s);
    }

    // One row: fetch and encode it, and send the open batch first when it has no room for it.
    method UploadRow(flag: Flag, rows: seq<Contact>, i: nat, dataStr: string, ghost before: seq<Packet>,
                     ghost kept: seq<seq<Contact>>, ghost s: Sending)
      returns (r: int, data: string, ghost s': Sending)
      requires i < |rows| && Progress(flag, rows, i, dataStr, s) && Posted(packets, contents, flag, before, kept, s)
      modifies this`answers, this`packets, this`contents
      ensures r in {0, -2, -3} && Posted(packets, contents, flag, before, kept, s')
      ensures r < 0 ==> s'.texts <= Texts(Batches([], Encodings(flag, rows)))
      ensures r == 0 ==> Progress(flag, rows, i + 1, data, s')
    {
      ProgressIsPrefix(flag, rows, i, dataStr, s);
      r, data, s' := 0, dataStr, s;
      var a := Ask();
      if a <= 0 {
        r := -2;
        return;
      }
      var tmp := EncodeContact(flag, rows[i]);
      if |dataStr| + |tmp| > HUGE_STRING_LENGTH {
        a := SendOpen(flag, dataStr, before, kept, s, [rows[i]]);
        if a < 0 {
          r := -3;
          return;
        }
        ProgressSends(flag, rows, i, dataStr, s);
        data, s' := "" + tmp, Sends(s, dataStr, rows[i]);
      } else {
        ProgressAppends(flag, rows, i, dataStr, s);
        data, s' := dataStr + tmp, Appends(s, rows[i]);
      }
    }

    // The batch still open when the rows are through.
    method SendRest(flag: Flag, ghost rows: seq<Contact>, dataStr: string, ghost before: seq<Packet>,
                    ghost kept: seq<seq<Contact>>, ghost s: Sending)
      returns (r: int, ghost s': Sending)
      requires |rows| > 0 && Progress(flag, rows, |rows|, dataStr, s) &&
               Posted(packets, contents, flag, before, kept, s)
      modifies this`answers, this`packets, this`contents
      ensures r in {0, -4} && Posted(packets, contents, flag, before, kept, s')
      ensures s'.texts <= Texts(Batches([], Encodings(flag, rows)))
      ensures r == 0 ==> s'.texts == Texts(Batches([], Encodings(flag, rows))) && Flatten(s'.groups) == rows
    {
      s' := s;
      ProgressIsPrefix(flag, rows, |rows|, dataStr, s);
      ProgressEnds(flag, rows, dataStr, s);
      if |dataStr| > 0 {
        var a := SendOpen(flag, dataStr, before, kept, s, []);
        if a < 0 {
          return -4, s';
        }
        s' := Sending([], s.texts + [dataStr], s.groups + [s.open]);
      }
      r := 0;
    }

    /** On success the messages sent are the batches of the selected records and
        hold each of them once, in order; on failure a first part of them. */
    method UploadContact(flag: Flag)
      returns (r: int, ghost cs: seq<Contact>, ghost texts: seq<string>, ghost groups: seq<seq<Contact>>)
      requires Valid()
      modifies this`answers, this`packets, this`contents
      ensures Valid()
      ensures -4 <= r <= 0
      ensures packets == old(packets) + PacketsOf(flag, texts)
      ensures contents == old(contents) + groups
      ensures r == -1 ==> texts == []
      ensures r != -1 ==> IsSelection(table, flag, cs) && texts <= Texts(Batches([], Encodings(flag, cs)))
      ensures r == 0 ==> texts == Texts(Batches([], Encodings(flag, cs))) && Flatten(groups) == cs
      ensures r == 0 ==> forall c :: c in cs ==> Carried(packets, contents, Upload(flag, c))
      ensures |texts| == |groups|
    {
      var n, rows := SelectRecords(flag);
      cs, texts, groups := rows, [], [];
      if n < 0 {
        return -1, cs, texts, groups;
      } else if n == 0 {
        assert Encodings(flag, cs) == [];
        return 0, cs, texts, groups;
      }
      ghost var s;
      r, s := UploadRows(flag, rows);
      texts, groups := s.texts, s.groups;
      if r == 0 {
        forall c | c in cs ensures Carried(packets, contents, Upload(flag, c)) {
          CarriedNew(old(packets), old(contents), flag, texts, groups, c);
        }
      }
    }

    // ------------------------------------------------------------------------
    // Downloading

    // Runs one statement against the table and commits it; a failing statement
    // is rolled back.
    method Execute(op: DbOp)
      requires Valid() && CanApply(table, op)
      modifies this`table, this`ops
      ensures Valid() && ops == old(ops) + [op] && table == Apply(old(table), op)
    {
      ApplyAllAppend(opening, ops, [op]);
      OneOperation(table, op);
      ApplyKeepsKeys(table, op);
      table := Apply(table, op);
      ops := ops + [op];
    }

    // The UPSERT ... SYNCED_RECORD statement: negative when it fails; with the Android
    // client 0 when an equal record exists, 1 when it inserts and 2 when it updates,
    // with the desktop client 0 in each of these cases.
    method UpsertContact(c: Contact) returns (r: int, ghost equal: bool)
      requires Valid()
      modifies this`answers, this`table, this`ops
      ensures Valid()
      ensures r < 0 ==> ops == old(ops) && table == old(table)
      ensures r >= 0 ==> CanApply(old(table), Upsert(c, equal))
      ensures r >= 0 ==> ops == old(ops) + [Upsert(c, equal)] && table == Apply(old(table), Upsert(c, equal))
      ensures r >= 0 ==> r == if client == Desktop || equal then 0 else if KeyOf(c) !in old(table).rows then 1 else 2
    {
      var a := Ask();
      if a < 0 {
        return -1, false;
      }
      var k := KeyOf(c);
      var rows := if k !in table.rows then 1 else if table.rows[k].contact == c && a == 0 then 0 else 2;
      equal := rows == 0;
      Execute(Upsert(c, rows == 0));
      r := if client == Desktop then 0 else rows;
    }

    // The DELETE statement: negative when it fails; the number of rows deleted with
    // the Android client, 0 with the desktop client.
    method DeleteContact(k: Key) returns (r: int, ghost f: Fate)
      requires Valid()
      modifies this`answers, this`table, this`ops
      ensures Valid() && FateFits(old(table), Some(k), f) && r == Points(client, f)
      ensures ops == old(ops) + RemoveOf(Some(k), f) && table == AfterOne(old(table), Some(k), f)
    {
      assert ops == ops + [];
      var a := Ask();
      if a < 0 {
        return -1, Failed;
      }
      if k !in table.rows {
        return 0, Absent;
      }
      Execute(Remove(k));
      return if client == Desktop then 0 else 1, Gone;
    }

    method FlushTable() returns (r: int)
      requires Valid()
      modifies this`answers, this`table, this`ops, this`failedFlushes
      ensures Valid() && Did(old(table), if r < 0 then [] else [FlushMarks], table, old(ops), ops)
      ensures failedFlushes == old(failedFlushes) + if r < 0 then 1 else 0
    {
      var a := Ask();
      assert ops == ops + [];
      if a < 0 {
        failedFlushes := failedFlushes + 1;
        return -1;
      }
      OneOperation(table, FlushMarks);
      Execute(FlushMarks);
      return 0;
    }

    /** The records of a batch are applied in order. 0 when all were, and then
        they are what the batch decodes to; -2 when the next one is malformed;
        -1 when its statement failed. */
    method DownloadSelect(data: string) returns (r: int, ghost done: seq<DbOp>)
      requires Valid()
      modifies this`answers, this`table, this`ops
      ensures Valid() && Did(old(table), done, table, old(ops), ops) && UpsertsOf(Split(data, RECORD_DEL), done)
      ensures r in {0, -1, -2}
      ensures r == 0 <==> |done| == |Split(data, RECORD_DEL)|
      ensures r == -2 <==> |done| < |Split(data, RECORD_DEL)| && Parsed(Split(data, RECORD_DEL)[|done|]) == None
      ensures r == 0 ==> Decode(data, 8) == Ok(Fields(done))
      ensures r == -2 ==> Decode(data, 8) == Malformed
    {
      var records := Split(data, RECORD_DEL);
      done := [];
      ghost var t, before := table, ops;
      assert ops == ops + [];
      r := 0;
      var i := 0;
      while i < |records|
        invariant 0 <= i <= |records| && i == |done| && r == 0
        invariant Valid() && Did(t, done, table, before, ops) && UpsertsOf(records, done)
      {
        ghost var op;
        label next:
        r, op := UpsertRecord(records[i]);
        if r < 0 {
          break;
        }
        OneMoreUpsert(t, done, old@next(table), before, old@next(ops), records, op);
        done := done + [op];
        i := i + 1;
      }
      if r == 0 {
        GoodRecordsDecode(records, done);
      } else if r == -2 {
        BadRecordIsMalformed(records, i);
      }
    }

    // One record of a select batch.
    method UpsertRecord(record: string) returns (r: int, ghost op: DbOp)
      requires Valid()
      modifies this`answers, this`table, this`ops
      ensures Valid() && r in {0, -1, -2} && (r == -2 <==> Parsed(record) == None)
      ensures r == 0 ==> op.Upsert? && Parsed(record) == Some(op.contact) && CanApply(old(table), op)
      ensures r == 0 ==> ops == old(ops) + [op] && table == Apply(old(table), op)
      ensures r < 0 ==> ops == old(ops) && table == old(table)
    {
      op := FlushMarks;
      var cols := Columns(record);
      if |cols| != 9 {
        return -2, op;
      }
      var ret;
      ghost var equal;
      ret, equal := UpsertContact(ToContact(cols));
      if ret < 0 {
        return -1, op;
      }
      return 0, Upsert(ToContact(cols), equal);
    }

    // One record of a delete batch: the number it adds to the result.
    method DeleteRecord(record: string) returns (n: int, ghost f: Fate)
      requires Valid()
      modifies this`answers, this`table, this`ops
      ensures Valid() && FateFits(old(table), Named(record), f) && n == Points(client, f)
      ensures ops == old(ops) + RemoveOf(Named(record), f)
      ensures table == AfterOne(old(table), Named(record), f)
    {
      assert ops == ops + [];
      var cols := Columns(record);
      if |cols| != 3 {
        return 1, Bad;
      }
      n, f := DeleteContact(Key(cols[0], cols[1]));
    }

    /** Every record of a batch is dealt with, and the result is their score:
        malformed records, and with the Android client rows deleted, less failed
        statements. */
    method DownloadDelete(data: string) returns (r: int, ghost done: seq<DbOp>, ghost fates: seq<Fate>)
      requires Valid()
      modifies this`answers, this`table, this`ops
      ensures Valid() && Did(old(table), done, table, old(ops), ops)
      ensures |fates| == |Split(data, RECORD_DEL)| && Deleted(old(table), Names(Split(data, RECORD_DEL)), fates, done)
      ensures r == Score(client, fates)
    {
      var recArray := Split(data, RECORD_DEL);
      var nErrSum := 0;
      done, fates := [], [];
      ghost var t, before, names := table, ops, Names(recArray);
      assert ops == ops + [];
      var i := 0;
      while i < |recArray|
        invariant 0 <= i <= |recArray| && |fates| == i && Valid()
        invariant Deleting(t, names, fates, done, table, before, ops) && nErrSum == Score(client, fates)
      {
        nErrSum, done, fates := DeleteNext(recArray, i, nErrSum, t, before, done, fates);
        i := i + 1;
      }
      DeletedApplies(t, names, fates, done);
      return nErrSum, done, fates;
    }

    // The next record of a delete batch.
    method DeleteNext(recArray: seq<string>, i: nat, nErrSum: int, ghost t: Table, ghost before: seq<DbOp>,
                      ghost done: seq<DbOp>, ghost fates: seq<Fate>)
      returns (sum: int, ghost done': seq<DbOp>, ghost fates': seq<Fate>)
      requires Valid() && |fates| == i < |recArray| && nErrSum == Score(client, fates)
      requires Deleting(t, Names(recArray), fates, done, table, before, ops)
      modifies this`answers, this`table, this`ops
      ensures Valid() && |fates'| == i + 1 && sum == Score(client, fates')
      ensures Deleting(t, Names(recArray), fates', done', table, before, ops)
    {
      ghost var names := Names(recArray);
      var n;
      ghost var f;
      n, f := DeleteRecord(recArray[i]);
      OneMoreDeleted(t, names, fates, done, old(table), before, old(ops), f);
      sum, done', fates' := nErrSum + n, done + RemoveOf(names[i], f), fates + [f];
    }

    // One message of the first stream, behind the ones already taken.
    method TakeSelects(text: string, ghost t: Table, ghost before: seq<DbOp>, ghost all: seq<Received>,
                       ghost left: seq<Received>, ghost done: seq<DbOp>, ghost texts: seq<string>)
      returns (e: int, ghost done': seq<DbOp>, ghost texts': seq<string>)
      requires Valid() && Did(t, done, table, before, ops) && SelectsDone(texts, done, true)
      requires Taken(all, texts, left, false) && Receives(left, Data(text), inbox)
      modifies this`answers, this`table, this`ops
      ensures Valid() && Did(t, done', table, before, ops) && SelectsDone(texts', done', e == 0) && -2 <= e <= 0
      ensures Taken(all, texts', inbox, false)
    {
      ghost var more;
      e, more := DownloadSelect(text);
      ConcatAssociates(before, done, more);
      ApplyAllAppend(t, done, more);
      SelectsMore(texts, done, text, more, e == 0);
      TakeOne(all, texts, text, left, inbox);
      done', texts' := done + more, texts + [text];
    }

    // One message of the second stream.
    method TakeDeletes(text: string, ghost t: Table, ghost before: seq<DbOp>, ghost all: seq<Received>,
                       ghost left: seq<Received>, ghost done: seq<DbOp>, ghost texts: seq<string>,
                       ghost fates: seq<seq<Fate>>)
      returns (e: int, ghost done': seq<DbOp>, ghost texts': seq<string>, ghost fates': seq<seq<Fate>>)
      requires Valid() && Did(t, done, table, before, ops) && DeletesDone(client, t, texts, fates, done, true)
      requires Taken(all, texts, left, false) && Receives(left, Data(text), inbox)
      modifies this`answers, this`table, this`ops
      ensures Valid() && Did(t, done', table, before, ops) && DeletesDone(client, t, texts', fates', done', e >= 0)
      ensures Taken(all, texts', inbox, false)
    {
      ghost var more, fs;
      e, more, fs := DownloadDelete(text);
      ConcatAssociates(before, done, more);
      ApplyAllAppend(t, done, more);
      DeletesMore(client, t, texts, fates, done, text, fs, more, e >= 0);
      TakeOne(all, texts, text, left, inbox);
      done', texts', fates' := done + more, texts + [text], fates + [fs];
    }

    /** Drain the select batches: every message in turn, up to the end of the
        stream, or what looks like it, or the first message that fails. */
    method ReceiveSelects() returns (r: int, ghost done: seq<DbOp>, ghost texts: seq<string>)
      requires Valid()
      modifies this`answers, this`inbox, this`table, this`ops
      ensures Valid() && Did(old(table), done, table, old(ops), ops) && -1 <= r <= 0
      ensures SelectsDone(texts, done, r == 0) && Taken(old(inbox), texts, inbox, r == 0)
    {
      done, texts := [], [];
      assert ops == ops + [];
      assert inbox == inbox[0..];
      ghost var t, before, all, left := table, ops, inbox, inbox;
      var d := Receive();
      while d.Data?
        invariant Valid() && Did(t, done, table, before, ops) && SelectsDone(texts, done, true)
        invariant Taken(all, texts, left, false) && Receives(left, d, inbox)
        decreases d.Data?, |inbox|
      {
        var e;
        e, done, texts := TakeSelects(d.text, t, before, all, left, done, texts);
        if e < 0 {
          return -1, done, texts;
        }
        left := inbox;
        d := Receive();
      }
      TakeEnd(all, texts, left, d, inbox);
      return 0, done, texts;
    }

    /** Drain the delete batches, in the same way. */
    method ReceiveDeletes()
      returns (r: int, ghost done: seq<DbOp>, ghost texts: seq<string>, ghost fates: seq<seq<Fate>>)
      requires Valid()
      modifies this`answers, this`inbox, this`table, this`ops
      ensures Valid() && Did(old(table), done, table, old(ops), ops) && -1 <= r <= 0
      ensures DeletesDone(client, old(table), texts, fates, done, r == 0) && Taken(old(inbox), texts, inbox, r == 0)
    {
      done, texts, fates := [], [], [];
      assert ops == ops + [];
      assert inbox == inbox[0..];
      ghost var t, before, all, left := table, ops, inbox, inbox;
      var d := Receive();
      while d.Data?
        invariant Valid() && Did(t, done, table, before, ops) && DeletesDone(client, t, texts, fates, done, true)
        invariant Taken(all, texts, left, false) && Receives(left, d, inbox)
        decreases d.Data?, |inbox|
      {
        var e;
        e, done, texts, fates := TakeDeletes(d.text, t, before, all, left, done, texts, fates);
        if e < 0 {
          return -1, done, texts, fates;
        }
        left := inbox;
        d := Receive();
      }
      TakeEnd(all, texts, left, d, inbox);
      return 0, done, texts, fates;
    }

    // ------------------------------------------------------------------------
    // The session

    // The three uploads, in order.
    method UploadAll() returns (r: int, ghost uploads: seq<Upload>)
      requires Valid()
      modifies this`answers, this`packets, this`contents
      ensures Valid() && -1 <= r <= 0
      ensures r == 0 ==> IsPendingList(table, uploads)
      ensures r == 0 ==> forall u :: u in uploads ==> Carried(packets, contents, u)
      ensures r == 0 ==> packets == old(packets) + Messages(uploads)
    {
      uploads := [];
      var r1, ins, t1, g1 := UploadContact(InsertFlag);
      if r1 < 0 {
        return -1, uploads;
      }
      label inserted:
      var r2, upd, t2, g2 := UploadContact(UpdateFlag);
      if r2 < 0 {
        return -1, uploads;
      }
      label updated:
      var r3, del, t3, g3 := UploadContact(DeleteFlag);
      if r3 < 0 {
        return -1, uploads;
      }
      uploads := Uploads(InsertFlag, ins) + Uploads(UpdateFlag, upd) + Uploads(DeleteFlag, del);
      StillCarried(InsertFlag, ins, old@inserted(packets), old@inserted(contents), PacketsOf(UpdateFlag, t2), g2);
      StillCarried(InsertFlag, ins, old@updated(packets), old@updated(contents), PacketsOf(DeleteFlag, t3), g3);
      StillCarried(UpdateFlag, upd, old@updated(packets), old@updated(contents), PacketsOf(DeleteFlag, t3), g3);
      AllCarried(ins, upd, del, packets, contents);
      PacketsJoin(old(packets), ins, upd, del);
      WithParts(ins, upd, del, uploads);
      return 0, uploads;
    }

    // What every session leaves behind.
    ghost predicate Session(before: Table, told: seq<Upload>, h: Handover)
      reads this`table, this`opening, this`ops, this`packets, this`contents, this`delivered
    {
      IsSession(Trace(opening, ops, table, packets, contents, delivered), before, told, h)
    }

    // A session begins with this table.
    ghost predicate Begun()
      reads this`table, this`opening, this`ops, this`packets, this`contents, this`failedFlushes
    {
      Valid() && opening == table && ops == [] && packets == [] && failedFlushes == 0
    }

    method StartSession()
      requires Valid()
      modifies this`packets, this`contents, this`opening, this`ops, this`failedFlushes
      ensures Begun()
    {
      packets, contents, opening, ops, failedFlushes := [], [], table, [], 0;
    }

    // The server is told its script and the name of the table.
    method Announce() returns (ok: bool)
      modifies this`answers
    {
      var a := Ask();
      if a >= 0 {
        a := Ask();
      }
      ok := a >= 0;
    }

    // Server names and table name, the uploads, and the acknowledgement.
    method UploadPhase() returns (acknowledged: bool, ghost h: Handover)
      requires Begun()
      modifies this`answers, this`packets, this`contents, this`delivered
      ensures IsSession(Trace(opening, ops, table, packets, contents, delivered), table, old(delivered), h)
      ensures (acknowledged <==> h.Acknowledged?)
    {
      acknowledged, h := false, Partial;
      var ok := Announce();
      if !ok {
        return;
      }
      var r, uploads := UploadAll();
      if r < 0 {
        return;
      }
      assert [] + Messages(uploads) == Messages(uploads);
      var a := Ask();
      if a < 0 {
        h := Unanswered(uploads);
        return;
      }
      delivered := delivered + uploads;
      acknowledged, h := true, Acknowledged(uploads);
    }

    // Both downloads, behind the flush after the uploads if there was one. 0 only
    // when both streams were drained.
    method Download(ghost first: seq<DbOp>) returns (r: int, ghost c: Course)
      requires Valid() && Did(opening, first, table, [], ops) && OnlyFlushes(first)
      modifies this`answers, this`inbox, this`table, this`ops
      ensures Valid() && -1 <= r <= 0
      ensures ops == first + c.ups + c.rems && AllUpserts(c.ups) && AllRemoves(c.rems)
      ensures c.first == first && c.last == []
      ensures r == 0 ==> WentThrough(client, opening, old(inbox), inbox, c)
    {
      assert [] + first == first;
      ghost var ups, selects;
      r, ups, selects := ReceiveSelects();
      ApplyAllAppend(opening, first, ups);
      ghost var rems: seq<DbOp>, middle, deletes, fates := [], inbox, [], [];
      if r == 0 {
        r, rems, deletes, fates := ReceiveDeletes();
        DeletedApplies(ApplyAll(opening, first + ups), NamesIn(deletes), Flatten(fates), rems);
      }
      assert ops == first + ups + rems;
      c := Course(first, ups, rems, [], selects, middle, deletes, fates);
    }

    // What the Android client does once its uploads are acknowledged.
    method AfterUploadEarly() returns (r: int, ghost c: Course)
      requires Valid() && opening == table && ops == [] && failedFlushes == 0
      modifies this`answers, this`inbox, this`table, this`ops, this`failedFlushes
      ensures Valid() && -1 <= r <= 0
      ensures failedFlushes == 0 ==> SyncRuns.FlushedEarly(ops)
      ensures r == 0 ==> RanThrough(client, opening, old(inbox), inbox, ops, c)
      ensures r == 0 && failedFlushes == 0 ==> c.first == c.last == [FlushMarks]
    {
      var flushed := FlushTable();
      ghost var first: seq<DbOp> := if flushed < 0 then [] else [FlushMarks];
      assert [] + first == first;
      r, c := Download(first);
      EarlyShape(first, c.ups, c.rems, []);
      if r == 0 {
        flushed := FlushTable();
        ghost var last: seq<DbOp> := if flushed < 0 then [] else [FlushMarks];
        EarlyShape(first, c.ups, c.rems, last);
        c := WentOn(client, opening, old(inbox), inbox, c, last);
      }
    }

    // What the desktop client does once its uploads are acknowledged.
    method AfterUploadLate() returns (r: int, ghost c: Course)
      requires Valid() && opening == table && ops == [] && failedFlushes == 0
      modifies this`answers, this`inbox, this`table, this`ops, this`failedFlushes
      ensures Valid() && -1 <= r <= 0
      ensures r == 0 ==> RanThrough(client, opening, old(inbox), inbox, ops, c) && c.first == []
      ensures r == 0 && failedFlushes == 0 ==> c.last == [FlushMarks] && SyncRuns.FlushedLate(ops)
      ensures r < 0 ==> FlushMarks !in ops
    {
      r, c := Download([]);
      if r == 0 {
        var flushed := FlushTable();
        ghost var last: seq<DbOp> := if flushed < 0 then [] else [FlushMarks];
        if last == [FlushMarks] {
          LateShape(c.ups, c.rems, last);
        }
        c := WentOn(client, opening, old(inbox), inbox, c, last);
      }
    }

    /** The session of the Android client: flushed right after the
        acknowledgement and again at the end. Acknowledged and with no flush
        failing, its effect is an early-flushed one wherever it stopped. When it
        succeeds, both streams were drained between the two flushes. */
    method SyncTableFlushingEarly() returns (r: int, ghost h: Handover, ghost c: Course)
      requires Begun() && client == Android
      modifies this
      ensures IsSession(Trace(opening, ops, table, packets, contents, delivered), old(table), old(delivered), h)
      ensures -1 <= r <= 0 && (r == 0 ==> h.Acknowledged?)
      ensures h.Acknowledged? && failedFlushes == 0 ==> SyncRuns.FlushedEarly(ops)
      ensures r == 0 ==> RanThrough(client, old(table), old(inbox), inbox, ops, c)
      ensures r == 0 && failedFlushes == 0 ==> c.first == c.last == [FlushMarks]
    {
      var acknowledged;
      acknowledged, h := UploadPhase();
      if !acknowledged {
        return -1, h, NOTHING;
      }
      r, c := AfterUploadEarly();
    }

    /** The session of the desktop client: flushed only after both downloads are
        drained. When it succeeds and the flush does not fail, its effect is a
        late-flushed one; when it fails after the acknowledgement, unflushed. */
    method SyncTableFlushingLate() returns (r: int, ghost h: Handover, ghost c: Course)
      requires Begun() && client == Desktop
      modifies this
      ensures IsSession(Trace(opening, ops, table, packets, contents, delivered), old(table), old(delivered), h)
      ensures -1 <= r <= 0 && (r == 0 ==> h.Acknowledged?)
      ensures r == 0 ==> RanThrough(client, old(table), old(inbox), inbox, ops, c) && c.first == []
      ensures r == 0 && failedFlushes == 0 ==> c.last == [FlushMarks] && SyncRuns.FlushedLate(ops)
      ensures r < 0 ==> FlushMarks !in ops
    {
      var acknowledged;
      acknowledged, h := UploadPhase();
      if !acknowledged {
        return -1, h, NOTHING;
      }
      r, c := AfterUploadLate();
    }

    // The table session of the client.
    method SyncTable() returns (r: int, ghost h: Handover, ghost c: Course)
      requires Begun()
      modifies this
      ensures IsSession(Trace(opening, ops, table, packets, contents, delivered), old(table), old(delivered), h)
      ensures -1 <= r <= 0 && (r == 0 ==> h.Acknowledged? && RanThrough(client, old(table), old(inbox), inbox, ops, c))
      ensures h.Acknowledged? && failedFlushes == 0 && (client == Android || r == 0) ==> SyncRuns.Flushed(ops)
    {
      if client == Android {
        r, h, c := SyncTableFlushingEarly();
      } else {
        r, h, c := SyncTableFlushingLate();
      }
    }

    // What follows a connection: authentication and the table session.
    method Authenticated() returns (r: int, ghost h: Handover, ghost c: Course)
      requires Begun()
      modifies this
      ensures IsSession(Trace(opening, ops, table, packets, contents, delivered), old(table), old(delivered), h)
      ensures r in {0, -1, RET_NEED_UPGRADE}
      ensures r == 0 ==> h.Acknowledged? && RanThrough(client, old(table), old(inbox), inbox, ops, c)
      ensures r == RET_NEED_UPGRADE ==> h.Partial?
      ensures h.Acknowledged? && failedFlushes == 0 && (client == Android || r == 0) ==> SyncRuns.Flushed(ops)
    {
      r, h, c := -1, Partial, NOTHING;
      var nRet := Ask();
      if nRet < 0 || nRet == NACK_FLAG {
        return;
      }
      if nRet == UPGRADE_FLAG {
        r := RET_NEED_UPGRADE;
      } else if nRet == ACK_FLAG {
        r, h, c := SyncTable();
      }
    }

    /** A whole synchronisation of either client: connect, authenticate, one
        table session, disconnect. Whatever it returns, the local table was
        touched only if the uploads were acknowledged; 0 (and -2, when only the
        disconnect failed) mean that the table session went through. */
    method DoSyncDb() returns (r: int, ghost h: Handover, ghost c: Course)
      requires Valid()
      modifies this
      ensures IsSession(Trace(opening, ops, table, packets, contents, delivered), old(table), old(delivered), h)
      ensures r in {0, -1, -2, RET_NEED_UPGRADE}
      ensures r == 0 || r == -2 ==> h.Acknowledged? && RanThrough(client, old(table), old(inbox), inbox, ops, c)
      ensures r == RET_NEED_UPGRADE ==> h.Partial?
      ensures h.Acknowledged? && failedFlushes == 0 && (client == Android || r != -1) ==> SyncRuns.Flushed(ops)
    {
      StartSession();
      r, h, c := Connected();
    }

    // Connect, and the rest if that succeeds.
    method Connected() returns (r: int, ghost h: Handover, ghost c: Course)
      requires Begun()
      modifies this
      ensures IsSession(Trace(opening, ops, table, packets, contents, delivered), old(table), old(delivered), h)
      ensures r in {0, -1, -2, RET_NEED_UPGRADE}
      ensures r == 0 || r == -2 ==> h.Acknowledged? && RanThrough(client, old(table), old(inbox), inbox, ops, c)
      ensures r == RET_NEED_UPGRADE ==> h.Partial?
      ensures h.Acknowledged? && failedFlushes == 0 && (client == Android || r != -1) ==> SyncRuns.Flushed(ops)
    {
      var a := Ask();
      if a < 0 {
        return -1, Partial, NOTHING;
      }
      r, h, c := LoggedIn();
    }

    // Once connected: authenticate, synchronise, disconnect.
    method LoggedIn() returns (r: int, ghost h: Handover, ghost c: Course)
      requires Begun()
      modifies this
      ensures IsSession(Trace(opening, ops, table, packets, contents, delivered), old(table), old(delivered), h)
      ensures r in {0, -1, -2, RET_NEED_UPGRADE}
      ensures r == 0 || r == -2 ==> h.Acknowledged? && RanThrough(client, old(table), old(inbox), inbox, ops, c)
      ensures r == RET_NEED_UPGRADE ==> h.Partial?
      ensures h.Acknowledged? && failedFlushes == 0 && (client == Android || r != -1) ==> SyncRuns.Flushed(ops)
    {
      r, h, c := Authenticated();
      ghost var tr, left := Trace(opening, ops, table, packets, contents, delivered), inbox;
      r := Disconnect(r);
      assert tr == Trace(opening, ops, table, packets, contents, delivered) && left == inbox;
    }

    method Disconnect(nRet: int) returns (r: int)
      modifies this`answers
      ensures r == nRet || (nRet == 0 && r == -2)
    {
      var a := Ask();
      r := if nRet == 0 && a < 0 then -2 else nRet;
    }
  }

  lemma LateShape(ups: seq<DbOp>, rems: seq<DbOp>, last: seq<DbOp>)
    requires last == [FlushMarks]
    ensures SyncRuns.FlushedLate([] + ups + rems + last)
  {
  }

  lemma EarlyShape(first: seq<DbOp>, ups: seq<DbOp>, rems: seq<DbOp>, last: seq<DbOp>)
    requires AllUpserts(ups) && AllRemoves(rems) && OnlyFlushes(first) && OnlyFlushes(last)
    ensures first == [FlushMarks] ==> SyncRuns.FlushedEarly(first + ups + rems + last)
    ensures first + ups + rems + [] == first + ups + rems
  {
    if first == [FlushMarks] {
      assert (first + ups + rems + last)[1..] == ups + rems + last;
      assert SyncRuns.UpsertsFirst(ups + rems + last, |ups|);
    }
  }

  /** A session whose messages were all handed over is a session event of SyncRuns,
      acknowledged or not, whether the server kept what it read in them or not and
      whatever it sent; any other leaves no trace. */
  lemma SessionIsEvent(sync: SyncClient, before: SyncRuns.State, h: Handover, kept: bool, sent: seq<Sent>)
    requires sync.Session(before.table, before.delivered, h)
    requires kept ==> ReadMessages(sync.packets).Some?
    requires (h.Acknowledged? && kept) || sent == []
    ensures !h.Partial? ==>
              var event := SyncRuns.Session(h.uploads, h.Acknowledged?, kept, sent, sync.ops);
              && Told(h.uploads) == ReadMessages(sync.packets)
              && SyncRuns.Allowed(before, event)
              && SyncRuns.Next(before, event).table == sync.table
              && SyncRuns.Next(before, event).delivered == sync.delivered
    ensures h.Partial? ==> sync.table == before.table && sync.delivered == before.delivered
  {
  }

  // A session of the client ended with success: its uploads were readable and kept,
  // and its streams unbroken.
  ghost predicate EndedWell(sync: SyncClient, before: SyncRuns.State, h: Handover, items: seq<Received>, c: Course,
                            groups: seq<seq<Contact>>, keys: seq<seq<Contact>>)
    reads sync
  {
    && h.Acknowledged? && sync.Session(before.table, before.delivered, h) && Readable(h.uploads)
    && IsStreamOf(items, groups, keys) && RanThrough(sync.client, before.table, items, sync.inbox, sync.ops, c)
    && Writable(InsertFlag, groups) && Writable(DeleteFlag, keys) && WellKeyed(before.table)
  }

  /** What a successful session leaves: with its uploads readable and kept and its
      streams unbroken, a key is the same on both sides if and only if it is not
      that of a row whose deletion failed; such a row stays, and with the flush at
      the end it is not marked. */
  lemma SuccessIsRightExactly(sync: SyncClient, before: SyncRuns.State, h: Handover, items: seq<Received>, c: Course,
                              groups: seq<seq<Contact>>, keys: seq<seq<Contact>>, k: Key)
    requires EndedWell(sync, before, h, items, c, groups, keys) && SyncRuns.InStepAt(before, k)
    ensures var event := SyncRuns.Session(h.uploads, true, true, SentRecords(groups, keys), sync.ops);
      && SyncRuns.Allowed(before, event)
      && (At(SyncRuns.Next(before, event).remote, k) == RowAt(sync.table, k) <==> !FailedDelete(before.table, c, k))
    ensures FailedDelete(before.table, c, k) && c.last == [FlushMarks] ==>
              k in sync.table.rows && sync.table.rows[k].mark == Synced
  {
    ToldExactly(before.table, h.uploads);
    SessionIsEvent(sync, before, h, true, SentRecords(groups, keys));
    SuccessAgreesExactly(sync.client, before, h.uploads, c, items, sync.inbox, groups, keys, k);
    if FailedDelete(before.table, c, k) && c.last == [FlushMarks] {
      FailedDeleteStays(sync.client, before.table, items, sync.inbox, c, k);
    }
  }

  /** A successful session of the desktop client leaves every key that was in step
      the same on both sides. */
  lemma DesktopSuccessIsRight(sync: SyncClient, before: SyncRuns.State, h: Handover, items: seq<Received>, c: Course,
                              groups: seq<seq<Contact>>, keys: seq<seq<Contact>>, k: Key)
    requires sync.client == Desktop
    requires EndedWell(sync, before, h, items, c, groups, keys) && SyncRuns.InStepAt(before, k)
    ensures var event := SyncRuns.Session(h.uploads, true, true, SentRecords(groups, keys), sync.ops);
      && SyncRuns.Allowed(before, event)
      && At(SyncRuns.Next(before, event).remote, k) == RowAt(sync.table, k)
  {
    ToldExactly(before.table, h.uploads);
    SessionIsEvent(sync, before, h, true, SentRecords(groups, keys));
    DesktopSuccessAgrees(before, h.uploads, c, items, sync.inbox, groups, keys, k);
  }
}
