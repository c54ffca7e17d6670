/**
  Whether an acknowledged session leaves the two sides with the same rows, from what
  the server sent and what became of each record.
*/
module SessionAgreement {
  import opened RecordCodec
  import opened MsyncTable
  import opened ServerRows
  import opened DownloadStreams
  import opened SyncRuns
  import opened ServerReading

  // How a session went that drained both streams: the flush after its uploads if
  // there was one, the upserts, the deletions, the flush at its end, and where the
  // upserts and deletions came from.
  datatype Course = Course(
    first: seq<DbOp>,
    ups: seq<DbOp>,
    rems: seq<DbOp>,
    last: seq<DbOp>,
    selects: seq<string>,
    middle: seq<Received>,
    deletes: seq<string>,
    fates: seq<seq<Fate>>)

  predicate OnlyFlushes(ops: seq<DbOp>) { ops == [] || ops == [FlushMarks] }

  function Operations(c: Course): seq<DbOp> { c.first + c.ups + (c.rems + c.last) }

  // The table when the deletions began.
  function BeforeDeletes(t: Table, c: Course): Table
    requires CanApplyAll(t, c.first + c.ups)
  {
    ApplyAll(t, c.first + c.ups)
  }

  ghost predicate WentThrough(client: Client, t: Table, inbox: seq<Received>, left: seq<Received>, c: Course)
  {
    && OnlyFlushes(c.first) && OnlyFlushes(c.last)
    && CanApplyAll(t, c.first + c.ups)
    && SelectsDone(c.selects, c.ups, true) && Taken(inbox, c.selects, c.middle, true)
    && DeletesDone(client, BeforeDeletes(t, c), c.deletes, c.fates, c.rems, true)
    && Taken(c.middle, c.deletes, left, true)
  }

  // These were the operations of a session that went through in this course.
  ghost predicate RanThrough(client: Client, t: Table, inbox: seq<Received>, left: seq<Received>, ops: seq<DbOp>,
                             c: Course) {
    ops == Operations(c) && WentThrough(client, t, inbox, left, c)
  }

  // The flush at the end of a session.
  lemma WentOn(client: Client, t: Table, inbox: seq<Received>, left: seq<Received>, c: Course, last: seq<DbOp>)
    returns (c': Course)
    requires WentThrough(client, t, inbox, left, c) && c.last == [] && OnlyFlushes(last)
    ensures WentThrough(client, t, inbox, left, c') && c' == c.(last := last)
    ensures Operations(c') == c.first + c.ups + c.rems + last
  {
    c' := c.(last := last);
    ConcatAssociates(c.first + c.ups, c.rems, last);
  }

  // The key's row was there, the server said it is deleted, and each statement to
  // delete it failed.
  ghost predicate FailedDelete(t: Table, c: Course, k: Key)
    requires CanApplyAll(t, c.first + c.ups)
  {
    var names := NamesIn(c.deletes);
    && k in BeforeDeletes(t, c).rows && |Flatten(c.fates)| == |names|
    && Some(k) in names
    && (forall j :: 0 <= j < |names| && names[j] == Some(k) ==> Flatten(c.fates)[j] == Failed)
  }

  lemma FlushKeepsRow(t: Table, ops: seq<DbOp>, k: Key)
    requires OnlyFlushes(ops)
    ensures CanApplyAll(t, ops) && RowAt(ApplyAll(t, ops), k) == RowAt(t, k)
    ensures Heard(ops) == []
  {
    if ops == [FlushMarks] {
      assert ops[1..] == [];
      assert Heard(ops) == [] + Heard([]);
    }
  }

  lemma RowBeforeDeletes(t: Table, c: Course, groups: seq<seq<Contact>>, k: Key)
    requires CanApplyAll(t, c.first + c.ups) && OnlyFlushes(c.first)
    requires Writable(InsertFlag, groups) && SelectsDone(SentTexts(InsertFlag, groups), c.ups, true)
    ensures RowAt(BeforeDeletes(t, c), k) == Said(Puts(Flatten(groups)), k, RowAt(t, k))
  {
    FlushKeepsRow(t, c.first, k);
    ApplyAllAppend(t, c.first, c.ups);
    AppliedIsSaid(ApplyAll(t, c.first), c.ups, k);
    SelectsAreHeard(groups, c.ups);
  }

  lemma RowBehindDeletes(client: Client, t: Table, c: Course, k: Key)
    requires CanApplyAll(t, c.first + c.ups) && OnlyFlushes(c.last)
    requires DeletesDone(client, BeforeDeletes(t, c), c.deletes, c.fates, c.rems, true)
    ensures CanApplyAll(t, Operations(c))
    ensures var b, names, fates := BeforeDeletes(t, c), NamesIn(c.deletes), Flatten(c.fates);
            RowAt(ApplyAll(t, Operations(c)), k) ==
              if forall j :: 0 <= j < |names| && names[j] == Some(k) ==> fates[j] == Failed then RowAt(b, k) else None
  {
    var b, names, fates := BeforeDeletes(t, c), NamesIn(c.deletes), Flatten(c.fates);
    DeletedApplies(b, names, fates, c.rems);
    FlushKeepsRow(ApplyAll(b, c.rems), c.last, k);
    ApplyAllAppend(b, c.rems, c.last);
    ApplyAllAppend(t, c.first + c.ups, c.rems + c.last);
    SurvivesExactly(b, names, fates, |fates|, k);
  }

  lemma DropsSay(cs: seq<Contact>, k: Key, was: Option<Contact>)
    ensures Said(Drops(cs), k, was) == if Some(k) in KeysOf(cs) then None else was
  {
    var drops, keys := Drops(cs), KeysOf(cs);
    var i := LastAbout(drops, k);
    if i >= 0 {
      SaidLast(drops, i, was);
      assert keys[i] == Some(k);
    } else {
      forall j | 0 <= j < |keys|
        ensures keys[j] != Some(k)
      {
        assert drops[j] in drops;
      }
      SaidNothing(drops, k, was);
    }
  }

  // What the server said of a key with its two streams.
  lemma StreamsSay(groups: seq<seq<Contact>>, keys: seq<seq<Contact>>, k: Key, was: Option<Contact>)
    requires Writable(DeleteFlag, keys)
    ensures Said(SentRecords(groups, keys), k, was) ==
              if Some(k) in NamesIn(SentTexts(DeleteFlag, keys)) then None else Said(Puts(Flatten(groups)), k, was)
  {
    SaidAppend(Puts(Flatten(groups)), Drops(Flatten(keys)), k, was);
    DeletesAreNamed(keys);
    DropsSay(Flatten(keys), k, Said(Puts(Flatten(groups)), k, was));
  }

  // What went through is right, except for failed deletions.
  lemma RightExceptFailures(client: Client, t: Table, c: Course, items: seq<Received>, left: seq<Received>,
                            groups: seq<seq<Contact>>, keys: seq<seq<Contact>>, k: Key)
    requires Writable(InsertFlag, groups) && Writable(DeleteFlag, keys) && IsStreamOf(items, groups, keys)
    requires WentThrough(client, t, items, left, c)
    ensures CanApplyAll(t, Operations(c)) && c.deletes == SentTexts(DeleteFlag, keys)
    ensures RightAt(t, SentRecords(groups, keys), Operations(c), k) <==> !FailedDelete(t, c, k)
  {
    var selects, deletes := SentTexts(InsertFlag, groups), SentTexts(DeleteFlag, keys);
    UnbrokenIsWhole(items, selects, deletes, c.selects, c.middle, c.deletes, left);
    RowBeforeDeletes(t, c, groups, k);
    RowBehindDeletes(client, t, c, k);
    StreamsSay(groups, keys, k, RowAt(t, k));
  }

  // What is known of a session that was acknowledged and kept, whose messages were
  // readable and whose streams were unbroken and went through.
  ghost predicate Succeeded(client: Client, s: State, us: seq<Upload>, c: Course, items: seq<Received>,
                            left: seq<Received>, groups: seq<seq<Contact>>, keys: seq<seq<Contact>>) {
    && WellKeyed(s.table) && IsPendingList(s.table, us) && Readable(us)
    && Writable(InsertFlag, groups) && Writable(DeleteFlag, keys) && IsStreamOf(items, groups, keys)
    && WentThrough(client, s.table, items, left, c)
  }

  /** Such a session leaves a key the same on both sides if and only if it is not
      one of a row the server deleted and the client failed to delete; and such
      failures were outweighed, in their message, by malformed records, or with the
      Android client by rows deleted. */
  lemma SuccessAgreesExactly(client: Client, s: State, us: seq<Upload>, c: Course, items: seq<Received>,
                             left: seq<Received>, groups: seq<seq<Contact>>, keys: seq<seq<Contact>>, k: Key)
    requires Succeeded(client, s, us, c, items, left, groups, keys) && InStepAt(s, k)
    ensures var e := Session(us, true, true, SentRecords(groups, keys), Operations(c));
      Allowed(s, e) && (At(Next(s, e).remote, k) == RowAt(Next(s, e).table, k) <==> !FailedDelete(s.table, c, k))
    ensures forall i :: 0 <= i < |c.fates| ==> Outweighed(client, c.fates[i])
  {
    RightExceptFailures(client, s.table, c, items, left, groups, keys, k);
    ToldExactly(s.table, us);
    SessionAgreesExactly(s, Session(us, true, true, SentRecords(groups, keys), Operations(c)), k);
    GoesThroughExactly(client, BeforeDeletes(s.table, c), c.deletes, c.fates, c.rems, true);
  }

  /** With the desktop client it leaves every key the same: a deleted row outweighs
      nothing there, and the server writes no malformed record. */
  lemma DesktopSuccessAgrees(s: State, us: seq<Upload>, c: Course, items: seq<Received>,
                             left: seq<Received>, groups: seq<seq<Contact>>, keys: seq<seq<Contact>>, k: Key)
    requires Succeeded(Desktop, s, us, c, items, left, groups, keys) && InStepAt(s, k)
    ensures var e := Session(us, true, true, SentRecords(groups, keys), Operations(c));
      Allowed(s, e) && At(Next(s, e).remote, k) == RowAt(Next(s, e).table, k)
  {
    SuccessAgreesExactly(Desktop, s, us, c, items, left, groups, keys, k);
    RightExceptFailures(Desktop, s.table, c, items, left, groups, keys, k);
    DesktopFailsNothing(s.table, c, keys, k);
  }

  lemma DesktopFailsNothing(t: Table, c: Course, keys: seq<seq<Contact>>, k: Key)
    requires CanApplyAll(t, c.first + c.ups) && Writable(DeleteFlag, keys) && c.deletes == SentTexts(DeleteFlag, keys)
    requires DeletesDone(Desktop, BeforeDeletes(t, c), c.deletes, c.fates, c.rems, true)
    ensures !FailedDelete(t, c, k)
  {
    var names, fates := NamesIn(c.deletes), Flatten(c.fates);
    DeletesAreNamed(keys);
    GoodNamesFailNothing(BeforeDeletes(t, c), c.deletes, c.fates, c.rems);
    if Some(k) in names {
      NoneFailed(names, fates, Some(k));
    }
  }

  lemma GoodNamesFailNothing(t: Table, texts: seq<string>, fates: seq<seq<Fate>>, done: seq<DbOp>)
    requires DeletesDone(Desktop, t, texts, fates, done, true)
    requires forall j :: 0 <= j < |NamesIn(texts)| ==> NamesIn(texts)[j].Some?
    ensures Failed !in Flatten(fates)
  {
    NamedIsNotBad(t, NamesIn(texts), Flatten(fates), |Flatten(fates)|);
    NothingFailed(t, texts, fates, done);
  }

  lemma NoneFailed(names: seq<Option<Key>>, fates: seq<Fate>, name: Option<Key>)
    requires |fates| == |names| && name in names && Failed !in fates
    ensures exists j :: 0 <= j < |names| && names[j] == name && fates[j] != Failed
  {
    var j :| 0 <= j < |names| && names[j] == name;
    assert fates[j] in fates;
  }

  lemma {:induction false} NamedIsNotBad(t: Table, names: seq<Option<Key>>, fates: seq<Fate>, n: nat)
    requires n <= |fates| && n <= |names| && TrueFates(t, names, fates, n)
    requires forall j :: 0 <= j < n ==> names[j].Some?
    ensures forall j :: 0 <= j < n ==> fates[j] != Bad
  {
    if n > 0 {
      NamedIsNotBad(t, names, fates, n - 1);
    }
  }

  // The items the server writes when nothing breaks, and what they mean.
  predicate IsStreamOf(items: seq<Received>, groups: seq<seq<Contact>>, keys: seq<seq<Contact>>) {
    IsStream(items, SentTexts(InsertFlag, groups), SentTexts(DeleteFlag, keys))
  }

  function SentRecords(groups: seq<seq<Contact>>, keys: seq<seq<Contact>>): seq<Sent> {
    Puts(Flatten(groups)) + Drops(Flatten(keys))
  }

  /** A row whose deletion failed in such a session stays, and when the flush at
      its end succeeded nothing marks it any more. */
  lemma FailedDeleteStays(client: Client, t: Table, inbox: seq<Received>, left: seq<Received>, c: Course, k: Key)
    requires WentThrough(client, t, inbox, left, c) && FailedDelete(t, c, k) && c.last == [FlushMarks]
    ensures CanApplyAll(t, Operations(c))
    ensures k in ApplyAll(t, Operations(c)).rows && ApplyAll(t, Operations(c)).rows[k].mark == Synced
  {
    RowBehindDeletes(client, t, c, k);
    FlushedLast(t, c.first + c.ups, c.rems, k);
  }

  lemma FlushedLast(t: Table, done: seq<DbOp>, more: seq<DbOp>, k: Key)
    requires CanApplyAll(t, done + (more + [FlushMarks])) && k in ApplyAll(t, done + (more + [FlushMarks])).rows
    ensures ApplyAll(t, done + (more + [FlushMarks])).rows[k].mark == Synced
  {
    ConcatAssociates(done, more, [FlushMarks]);
    ApplyAllAppend(t, done + more, [FlushMarks]);
    assert [FlushMarks][1..] == [];
  }

  function TwoDeletes(k: Key, k': Key): (keys: seq<seq<Contact>>)
    ensures |keys| == 1 && |keys[0]| == 2 && keys[0][0] == Tombstone(k) && keys[0][1] == Tombstone(k')
  {
    [[Tombstone(k), Tombstone(k')]]
  }

  /** That happens with the Android client: the server deleted two rows and says so in
      one message, the first deletion succeeds, the second fails, and the session
      goes through. */
  lemma FailedDeleteHappens(t: Table, k: Key, k': Key) returns (items: seq<Received>, c: Course)
    requires k != k' && k in t.rows && k' in t.rows
    requires AllClean([k.id, k.username]) && AllClean([k'.id, k'.username])
    ensures IsStreamOf(items, [], TwoDeletes(k, k')) && WentThrough(Android, t, items, [], c)
    ensures c.rems == [Remove(k)] && FailedDelete(t, c, k')
  {
    var texts := SentTexts(DeleteFlag, TwoDeletes(k, k'));
    TwoNames(k, k');
    var fates := TwoFates(Flush(t), NamesIn(texts), k, k');
    OneDeletes(Android, Flush(t), texts, fates, [Remove(k)]);
    items, c := OneDeleteMessage(Android, t, texts[0], texts, [fates], [Remove(k)]);
    FlattenSingle([fates]);
    SecondFailed(t, c, fates, k');
  }

  lemma TwoNames(k: Key, k': Key)
    requires AllClean([k.id, k.username]) && AllClean([k'.id, k'.username])
    ensures var names := NamesIn(SentTexts(DeleteFlag, TwoDeletes(k, k')));
            |names| == 2 && names[0] == Some(k) && names[1] == Some(k')
  {
    var keys := TwoDeletes(k, k');
    assert Layout(DeleteFlag, Tombstone(k)) == [k.id, k.username];
    assert Layout(DeleteFlag, Tombstone(k')) == [k'.id, k'.username];
    DeletesAreNamed(keys);
    FlattenSingle(keys);
  }

  lemma OneDeletes(client: Client, t: Table, texts: seq<string>, fates: seq<Fate>, done: seq<DbOp>)
    requires |texts| == 1 && |fates| == |NamesIn(texts)| && Score(client, fates) >= 0
    requires Deleted(t, NamesIn(texts), fates, done)
    ensures DeletesDone(client, t, texts, [fates], done, true)
  {
    RecordsSingle(texts);
    FlattenSingle([fates]);
  }

  // The second record of a message failed.
  lemma SecondFailed(t: Table, c: Course, fates: seq<Fate>, k': Key)
    requires CanApplyAll(t, c.first + c.ups) && k' in BeforeDeletes(t, c).rows
    requires Flatten(c.fates) == fates && |fates| == 2 && fates[1] == Failed
    requires var names := NamesIn(c.deletes); |names| == 2 && names[0] != Some(k') && names[1] == Some(k')
    ensures FailedDelete(t, c, k')
  {
    var names := NamesIn(c.deletes);
    assert names[1] in names;
    forall j | 0 <= j < |names| && names[j] == Some(k')
      ensures fates[j] == Failed
    {
      assert j == 1;
    }
  }

  /** With either client a malformed record hides a failure in the same way: of two
      records to delete the first names no key, the deletion of the second fails, and
      the session goes through. */
  lemma MalformedHidesFailure(client: Client, t: Table, texts: seq<string>, k: Key)
    returns (items: seq<Received>, c: Course)
    requires k in t.rows && |texts| == 1 && NamesMalformed(NamesIn(texts), k)
    ensures IsStream(items, [], texts) && WentThrough(client, t, items, [], c)
    ensures c.rems == [] && FailedDelete(t, c, k)
  {
    var fates := BadThenFailed(client, Flush(t), NamesIn(texts), k);
    OneDeletes(client, Flush(t), texts, fates, []);
    items, c := OneDeleteMessage(client, t, texts[0], texts, [fates], []);
    FlattenSingle([fates]);
    SecondFailed(t, c, fates, k);
  }

  predicate NamesMalformed(names: seq<Option<Key>>, k: Key) {
    |names| == 2 && names[0] == None && names[1] == Some(k)
  }

  /** Such a message is one of a record of three fields and one that names the key. */
  lemma MalformedNames(rows: seq<seq<string>>, k: Key, texts: seq<string>)
    requires |rows| == 2 && |rows[0]| == 3 && rows[1] == [k.id, k.username]
    requires AllClean(rows[0]) && AllClean(rows[1]) && texts == [EncodeRows(rows)]
    ensures NamesMalformed(NamesIn(texts), k)
  {
    SplitOfRows(rows);
    ColumnsOfRecord(rows[0]);
    ColumnsOfRecord(rows[1]);
    RecordsSingle(texts);
  }

  lemma BadThenFailed(client: Client, t: Table, names: seq<Option<Key>>, k: Key) returns (fates: seq<Fate>)
    requires NamesMalformed(names, k)
    ensures |fates| == 2 && fates[0] == Bad && fates[1] == Failed && Score(client, fates) == 0
    ensures Deleted(t, names, fates, [])
  {
    fates := [];
    OneMoreFate(t, names, fates, [], Bad);
    fates := fates + [Bad];
    OneMoreFate(t, names, fates, [], Failed);
    fates := fates + [Failed];
  }

  // A session that receives one delete message and nothing else.
  lemma OneDeleteMessage(client: Client, t: Table, text: string, texts: seq<string>, fates: seq<seq<Fate>>,
                         done: seq<DbOp>)
    returns (items: seq<Received>, c: Course)
    requires texts == [text] && DeletesDone(client, Flush(t), texts, fates, done, true)
    ensures c == Course([FlushMarks], [], done, [FlushMarks], [], [Data(text), End], texts, fates)
    ensures IsStream(items, [], texts) && WentThrough(client, t, items, [], c)
    ensures CanApplyAll(t, c.first + c.ups) && BeforeDeletes(t, c) == Flush(t)
  {
    c := Course([FlushMarks], [], done, [FlushMarks], [], [Data(text), End], texts, fates);
    items := [End, Data(text), End];
    assert c.first + c.ups == [FlushMarks] && [FlushMarks][1..] == [];
    assert items[1..] == c.middle && c.middle[2..] == [];
  }

  lemma TwoFates(t: Table, names: seq<Option<Key>>, k: Key, k': Key) returns (fates: seq<Fate>)
    requires |names| == 2 && names[0] == Some(k) && names[1] == Some(k') && k in t.rows
    ensures |fates| == 2 && fates[0] == Gone && fates[1] == Failed && Score(Android, fates) == 0
    ensures Deleted(t, names, fates, [Remove(k)])
  {
    fates := [];
    var done: seq<DbOp> := [];
    OneMoreFate(t, names, fates, done, Gone);
    fates, done := fates + [Gone], done + RemoveOf(names[0], Gone);
    OneMoreFate(t, names, fates, done, Failed);
    fates, done := fates + [Failed], done + RemoveOf(names[1], Failed);
    assert done == [Remove(k)];
  }

  const SILENT: Course := Course([FlushMarks], [], [], [FlushMarks], [], [], [], [])

  lemma SilentCourse(client: Client, t: Table, k: Key)
    ensures WentThrough(client, t, [], [], SILENT) && CanApplyAll(t, Operations(SILENT))
    ensures RowAt(ApplyAll(t, Operations(SILENT)), k) == RowAt(t, k)
  {
    var c := SILENT;
    assert c.first + c.ups == [FlushMarks] && c.rems + c.last == [FlushMarks] && [FlushMarks][1..] == [];
    ApplyAllAppend(t, [FlushMarks], [FlushMarks]);
    FlushKeepsRow(t, [FlushMarks], k);
    FlushKeepsRow(Flush(t), [FlushMarks], k);
  }

  /** A server that falls silent after its acknowledgement is not noticed either:
      the session goes through with nothing received, and agrees on a key only
      where the server had nothing new to say. */
  lemma SilenceGoesThrough(client: Client, s: State, us: seq<Upload>, sent: seq<Sent>, k: Key)
    requires WellKeyed(s.table) && InStepAt(s, k) && IsPendingList(s.table, us) && Readable(us)
    ensures WentThrough(client, s.table, [], [], SILENT)
    ensures var e := Session(us, true, true, sent, Operations(SILENT));
      && Allowed(s, e)
      && var after := Next(s, e);
         At(after.remote, k) == RowAt(after.table, k) <==> Said(sent, k, RowAt(s.table, k)) == RowAt(s.table, k)
  {
    SilentCourse(client, s.table, k);
    ToldExactly(s.table, us);
    SessionAgreesExactly(s, Session(us, true, true, sent, Operations(SILENT)), k);
  }
}
