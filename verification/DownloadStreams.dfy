/**
  What the two download streams do to the table: the records of the messages, the
  upserts made of them, the fate of each record to delete, and the end of a stream,
  which looks the same to the client as a broken connection.
*/
module DownloadStreams {
  import opened RecordCodec
  import opened MsyncTable
  import opened ServerRows

  datatype Client = Android | Desktop

  // A message; the end of a stream; nothing in time, or an error.
  datatype Received = Data(text: string) | End | Broken

  function ToContact(cols: seq<string>): Contact
    requires |cols| >= 8
  {
    Contact(cols[0], cols[1], cols[2], cols[3], cols[4], cols[5], cols[6], cols[7])
  }

  predicate AllUpserts(ops: seq<DbOp>) {
    forall i :: 0 <= i < |ops| ==> ops[i].Upsert?
  }

  predicate AllRemoves(ops: seq<DbOp>) {
    forall i :: 0 <= i < |ops| ==> ops[i].Remove?
  }

  function FieldsOf(c: Contact): seq<string> {
    Layout(InsertFlag, c)
  }

  function Fields(ops: seq<DbOp>): seq<seq<string>>
    requires AllUpserts(ops)
  {
    seq(|ops|, i requires 0 <= i < |ops| => FieldsOf(ops[i].contact))
  }

  // The contact a record to upsert holds, None when it does not have eight fields.
  function Parsed(record: string): Option<Contact> {
    var cols := Columns(record);
    if |cols| == 9 then Some(ToContact(cols)) else None
  }

  lemma {:induction false} GoodRecordsDecode(records: seq<string>, ops: seq<DbOp>)
    requires |records| == |ops| && UpsertsOf(records, ops)
    ensures DecodeRecords(records, 8) == Ok(Fields(ops))
  {
    if |records| == 0 {
      assert Fields(ops) == [];
    } else {
      GoodRecordsDecode(records[1..], ops[1..]);
      FirstRecordDecodes(records[0], ops[0].contact);
      assert Fields(ops) == [FieldsOf(ops[0].contact)] + Fields(ops[1..]);
    }
  }

  lemma FirstRecordDecodes(record: string, c: Contact)
    requires Parsed(record) == Some(c)
    ensures |Columns(record)| == 9 && Columns(record)[..8] == FieldsOf(c)
  {
  }

  lemma {:induction false} BadRecordIsMalformed(records: seq<string>, i: nat)
    requires i < |records| && Parsed(records[i]) == None
    ensures DecodeRecords(records, 8) == Malformed
  {
    if i > 0 {
      BadRecordIsMalformed(records[1..], i - 1);
    }
  }

  // --------------------------------------------------------------------------
  // Messages taken from the connection

  // The items begin with these messages.
  predicate BeginsWith(items: seq<Received>, texts: seq<string>) {
    |texts| <= |items| && forall i :: 0 <= i < |texts| ==> items[i] == Data(texts[i])
  }

  // One item taken; an empty connection times out.
  predicate Receives(left: seq<Received>, d: Received, rest: seq<Received>)
  {
    if left == [] then d == Broken && rest == [] else left == [d] + rest
  }

  // Exactly the messages `texts` were taken, and then, when the stream ended for
  // the client, one item that is no message, if there was one.
  predicate Taken(inbox: seq<Received>, texts: seq<string>, left: seq<Received>, ended: bool)
  {
    && BeginsWith(inbox, texts)
    && if !ended then left == inbox[|texts|..]
       else if |inbox| == |texts| then left == []
       else !inbox[|texts|].Data? && left == inbox[|texts| + 1..]
  }

  lemma TakeOne(inbox: seq<Received>, texts: seq<string>, text: string, left: seq<Received>, rest: seq<Received>)
    requires Taken(inbox, texts, left, false) && Receives(left, Data(text), rest)
    ensures Taken(inbox, texts + [text], rest, false)
  {
    assert left[0] == Data(text) && left[1..] == rest;
    assert inbox[|texts|] == left[0] && inbox[|texts| + 1..] == left[1..];
  }

  lemma TakeEnd(inbox: seq<Received>, texts: seq<string>, left: seq<Received>, d: Received, rest: seq<Received>)
    requires Taken(inbox, texts, left, false) && Receives(left, d, rest) && !d.Data?
    ensures Taken(inbox, texts, rest, true)
  {
    if left != [] {
      assert left[0] == d && left[1..] == rest;
      assert inbox[|texts|] == left[0] && inbox[|texts| + 1..] == left[1..];
    }
  }

  // What the server writes as two streams when nothing breaks.
  predicate IsStream(items: seq<Received>, selects: seq<string>, deletes: seq<string>) {
    var m, n := |selects|, |deletes|;
    && |items| == m + n + 2
    && BeginsWith(items, selects) && items[m] == End
    && BeginsWith(items[m + 1..], deletes) && items[m + n + 1] == End
  }

  /** What the server wrote as two streams is what the client takes as two streams,
      when nothing breaks; and no other messages then. */
  lemma UnbrokenIsWhole(items: seq<Received>, selects: seq<string>, deletes: seq<string>, texts: seq<string>,
                        middle: seq<Received>, texts': seq<string>, left: seq<Received>)
    requires IsStream(items, selects, deletes)
    requires Taken(items, texts, middle, true) && Taken(middle, texts', left, true)
    ensures texts == selects && texts' == deletes && left == []
  {
    SameMessages(items, selects, texts, middle);
    assert middle == items[|selects| + 1..];
    assert middle[|deletes|] == items[|selects| + |deletes| + 1];
    SameMessages(middle, deletes, texts', left);
  }

  lemma SameMessages(items: seq<Received>, sent: seq<string>, texts: seq<string>, left: seq<Received>)
    requires BeginsWith(items, sent) && |sent| < |items| && items[|sent|] == End && Taken(items, texts, left, true)
    ensures texts == sent && left == items[|sent| + 1..]
  {
    assert forall i :: 0 <= i < |sent| ==> items[i] == Data(sent[i]) && items[i] == Data(texts[i]);
  }

  // --------------------------------------------------------------------------
  // Records, and the upserts made of them

  function Records(texts: seq<string>): seq<string>
    decreases |texts|
  {
    if |texts| == 0 then []
    else Records(texts[..|texts| - 1]) + Split(texts[|texts| - 1], RECORD_DEL)
  }

  lemma RecordsSnoc(texts: seq<string>, text: string)
    ensures Records(texts + [text]) == Records(texts) + Split(text, RECORD_DEL)
  {
    assert (texts + [text])[..|texts|] == texts;
  }

  lemma RecordsSingle(texts: seq<string>)
    requires |texts| == 1
    ensures Records(texts) == Split(texts[0], RECORD_DEL)
  {
    assert Records(texts[..0]) == [];
  }

  // The first |done| records were decoded and upserted, in order.
  predicate UpsertsOf(records: seq<string>, done: seq<DbOp>)
  {
    && AllUpserts(done) && |done| <= |records|
    && forall j :: 0 <= j < |done| ==> Parsed(records[j]) == Some(done[j].contact)
  }

  // A stream of select batches: each record in turn, all of them or up to one of
  // the last message that failed.
  predicate SelectsDone(texts: seq<string>, done: seq<DbOp>, whole: bool)
  {
    && UpsertsOf(Records(texts), done)
    && (if whole then |done| == |Records(texts)|
        else |texts| > 0 && |Records(texts[..|texts| - 1])| <= |done| < |Records(texts)|)
  }

  lemma SelectsMore(texts: seq<string>, done: seq<DbOp>, text: string, more: seq<DbOp>, whole: bool)
    requires SelectsDone(texts, done, true) && UpsertsOf(Split(text, RECORD_DEL), more)
    requires whole <==> |more| == |Split(text, RECORD_DEL)|
    ensures SelectsDone(texts + [text], done + more, whole)
  {
    RecordsSnoc(texts, text);
    assert (texts + [text])[..|texts|] == texts;
  }

  // --------------------------------------------------------------------------
  // Records to delete

  // The key a record to delete names, None when it does not have two fields.
  function Named(record: string): Option<Key> {
    var cols := Columns(record);
    if |cols| == 3 then Some(Key(cols[0], cols[1])) else None
  }

  function Names(records: seq<string>): (names: seq<Option<Key>>)
    ensures |names| == |records| && forall i :: 0 <= i < |names| ==> names[i] == Named(records[i])
  {
    seq(|records|, i requires 0 <= i < |records| => Named(records[i]))
  }

  // What became of a record to delete: a row deleted, no such row, a record that
  // does not have two fields, a statement that failed.
  datatype Fate = Gone | Absent | Bad | Failed

  function RemoveOf(name: Option<Key>, f: Fate): seq<DbOp> {
    if f == Gone && name.Some? then [Remove(name.value)] else []
  }

  // The operations of the first n records that met these fates.
  function RemovesOf(names: seq<Option<Key>>, fates: seq<Fate>, n: nat): seq<DbOp>
    requires n <= |fates| && n <= |names|
  {
    if n == 0 then [] else RemovesOf(names, fates, n - 1) + RemoveOf(names[n - 1], fates[n - 1])
  }

  // What is left of table t when a record naming this met this fate.
  function AfterOne(t: Table, name: Option<Key>, f: Fate): Table {
    if f == Gone && name.Some? && name.value in t.rows then DeleteRow(t, name.value) else t
  }

  function TableAfter(t: Table, names: seq<Option<Key>>, fates: seq<Fate>, n: nat): Table
    requires n <= |fates| && n <= |names|
  {
    if n == 0 then t else AfterOne(TableAfter(t, names, fates, n - 1), names[n - 1], fates[n - 1])
  }

  // A record deletes its row just when there is one, unless its statement failed.
  predicate FateFits(t: Table, name: Option<Key>, f: Fate)
  {
    && (f == Bad <==> name == None)
    && (f == Gone ==> name.value in t.rows)
    && (f == Absent ==> name.value !in t.rows)
  }

  predicate TrueFates(t: Table, names: seq<Option<Key>>, fates: seq<Fate>, n: nat)
    requires n <= |fates| && n <= |names|
  {
    n == 0 ||
    (TrueFates(t, names, fates, n - 1) && FateFits(TableAfter(t, names, fates, n - 1), names[n - 1], fates[n - 1]))
  }

  // What a record adds to the number a delete batch answers: the statement's answer,
  // which is the number of rows with the Android client only.
  function Points(client: Client, f: Fate): int {
    match f
    case Gone => if client == Android then 1 else 0
    case Absent => 0
    case Bad => 1
    case Failed => -1
  }

  function ScoreTo(client: Client, fates: seq<Fate>, n: nat): int
    requires n <= |fates|
  {
    if n == 0 then 0 else ScoreTo(client, fates, n - 1) + Points(client, fates[n - 1])
  }

  function Score(client: Client, fates: seq<Fate>): int { ScoreTo(client, fates, |fates|) }

  // Records of these names met these fates on table t, by these operations.
  predicate Deleted(t: Table, names: seq<Option<Key>>, fates: seq<Fate>, done: seq<DbOp>)
  {
    |fates| <= |names| && TrueFates(t, names, fates, |fates|) && done == RemovesOf(names, fates, |fates|)
  }

  lemma OneApplies(t: Table, name: Option<Key>, f: Fate)
    requires FateFits(t, name, f)
    ensures CanApplyAll(t, RemoveOf(name, f)) && ApplyAll(t, RemoveOf(name, f)) == AfterOne(t, name, f)
  {
    if f == Gone {
      assert RemoveOf(name, f)[1..] == [];
    }
  }

  lemma {:induction false} RemovesApply(t: Table, names: seq<Option<Key>>, fates: seq<Fate>, n: nat)
    requires n <= |fates| && n <= |names| && TrueFates(t, names, fates, n)
    ensures CanApplyAll(t, RemovesOf(names, fates, n)) && AllRemoves(RemovesOf(names, fates, n))
    ensures ApplyAll(t, RemovesOf(names, fates, n)) == TableAfter(t, names, fates, n)
  {
    if n > 0 {
      RemovesApply(t, names, fates, n - 1);
      OneApplies(TableAfter(t, names, fates, n - 1), names[n - 1], fates[n - 1]);
      ApplyAllAppend(t, RemovesOf(names, fates, n - 1), RemoveOf(names[n - 1], fates[n - 1]));
    }
  }

  lemma DeletedApplies(t: Table, names: seq<Option<Key>>, fates: seq<Fate>, done: seq<DbOp>)
    requires Deleted(t, names, fates, done)
    ensures CanApplyAll(t, done) && ApplyAll(t, done) == TableAfter(t, names, fates, |fates|) && AllRemoves(done)
  {
    RemovesApply(t, names, fates, |fates|);
  }

  // The list has this one from position m on.
  predicate Holds<T(==)>(list: seq<T>, m: nat, part: seq<T>) {
    m + |part| <= |list| && forall j :: 0 <= j < |part| ==> part[j] == list[m + j]
  }

  lemma JoinHolds<T>(a: seq<T>, b: seq<T>)
    ensures Holds(a + b, 0, a) && Holds(a + b, |a|, b)
  {
  }

  // Longer lists do not change what their first n records do.
  lemma {:induction false} SamePrefix(t: Table, r: seq<Option<Key>>, r': seq<Option<Key>>, f: seq<Fate>, f': seq<Fate>,
                                      n: nat)
    requires n <= |f| && n <= |r| && Holds(r', 0, r) && Holds(f', 0, f)
    ensures TableAfter(t, r', f', n) == TableAfter(t, r, f, n)
    ensures TrueFates(t, r', f', n) <==> TrueFates(t, r, f, n)
  {
    if n > 0 {
      SamePrefix(t, r, r', f, f', n - 1);
    }
  }

  lemma {:induction false} SameRemoves(r: seq<Option<Key>>, r': seq<Option<Key>>, f: seq<Fate>, f': seq<Fate>, n: nat)
    requires n <= |f| && n <= |r| && Holds(r', 0, r) && Holds(f', 0, f)
    ensures RemovesOf(r', f', n) == RemovesOf(r, f, n)
  {
    if n > 0 {
      SameRemoves(r, r', f, f', n - 1);
    }
  }

  lemma {:induction false} SameScore(client: Client, f: seq<Fate>, f': seq<Fate>, n: nat)
    requires n <= |f| && Holds(f', 0, f)
    ensures ScoreTo(client, f', n) == ScoreTo(client, f, n)
  {
    if n > 0 {
      SameScore(client, f, f', n - 1);
    }
  }

  // The records from m on do to what the others left what they would do alone.
  lemma {:induction false} FromThere(t: Table, r: seq<Option<Key>>, f: seq<Fate>, m: nat,
                                     r': seq<Option<Key>>, f': seq<Fate>, n: nat)
    requires n <= |f'| && n <= |r'| && Holds(r, m, r') && Holds(f, m, f')
    ensures TableAfter(t, r, f, m + n) == TableAfter(TableAfter(t, r, f, m), r', f', n)
    ensures TrueFates(t, r, f, m + n) <==> TrueFates(t, r, f, m) && TrueFates(TableAfter(t, r, f, m), r', f', n)
  {
    if n > 0 {
      FromThere(t, r, f, m, r', f', n - 1);
    }
  }

  lemma {:induction false} RemovesFromThere(r: seq<Option<Key>>, f: seq<Fate>, m: nat,
                                            r': seq<Option<Key>>, f': seq<Fate>, n: nat)
    requires n <= |f'| && n <= |r'| && Holds(r, m, r') && Holds(f, m, f')
    ensures RemovesOf(r, f, m + n) == RemovesOf(r, f, m) + RemovesOf(r', f', n)
  {
    if n > 0 {
      RemovesFromThere(r, f, m, r', f', n - 1);
      ConcatAssociates(RemovesOf(r, f, m), RemovesOf(r', f', n - 1), RemoveOf(r'[n - 1], f'[n - 1]));
    }
  }

  lemma OneMoreFate(t: Table, names: seq<Option<Key>>, fates: seq<Fate>, done: seq<DbOp>, f: Fate)
    requires Deleted(t, names, fates, done) && |fates| < |names|
    requires FateFits(TableAfter(t, names, fates, |fates|), names[|fates|], f)
    ensures Deleted(t, names, fates + [f], done + RemoveOf(names[|fates|], f))
    ensures TableAfter(t, names, fates + [f], |fates| + 1) ==
              AfterOne(TableAfter(t, names, fates, |fates|), names[|fates|], f)
    ensures forall client :: Score(client, fates + [f]) == Score(client, fates) + Points(client, f)
  {
    var n, fates' := |fates|, fates + [f];
    JoinHolds(fates, [f]);
    JoinHolds(names, []);
    assert names + [] == names && fates'[n] == f;
    SamePrefix(t, names, names, fates, fates', n);
    SameRemoves(names, names, fates, fates', n);
    forall client
      ensures ScoreTo(client, fates', n) == ScoreTo(client, fates, n)
    {
      SameScore(client, fates, fates', n);
    }
  }

  // One batch behind another.
  lemma DeletedBoth(t: Table, r: seq<Option<Key>>, f: seq<Fate>, d: seq<DbOp>,
                    r': seq<Option<Key>>, f': seq<Fate>, d': seq<DbOp>, rr: seq<Option<Key>>, ff: seq<Fate>)
    requires Deleted(t, r, f, d) && Deleted(TableAfter(t, r, f, |f|), r', f', d')
    requires Holds(rr, 0, r) && Holds(rr, |f|, r') && Holds(ff, 0, f) && Holds(ff, |f|, f')
    requires |ff| == |f| + |f'|
    ensures Deleted(t, rr, ff, d + d')
  {
    SamePrefix(t, r, rr, f, ff, |f|);
    SameRemoves(r, rr, f, ff, |f|);
    FromThere(t, rr, ff, |f|, r', f', |f'|);
    RemovesFromThere(rr, ff, |f|, r', f', |f'|);
  }

  lemma DeletedJoin(t: Table, r: seq<Option<Key>>, f: seq<Fate>, d: seq<DbOp>,
                    r': seq<Option<Key>>, f': seq<Fate>, d': seq<DbOp>)
    requires |f| == |r| && Deleted(t, r, f, d)
    requires Deleted(TableAfter(t, r, f, |f|), r', f', d')
    ensures Deleted(t, r + r', f + f', d + d')
  {
    JoinHolds(f, f');
    JoinHolds(r, r');
    DeletedBoth(t, r, f, d, r', f', d', r + r', f + f');
  }

  /** A row survives the deletions exactly when it was there and every record that
      names it failed. */
  lemma {:induction false} SurvivesExactly(t: Table, names: seq<Option<Key>>, fates: seq<Fate>, n: nat, k: Key)
    requires n <= |fates| && n <= |names| && TrueFates(t, names, fates, n)
    ensures k in TableAfter(t, names, fates, n).rows <==>
            k in t.rows && forall j :: 0 <= j < n && names[j] == Some(k) ==> fates[j] == Failed
    ensures k in TableAfter(t, names, fates, n).rows ==> TableAfter(t, names, fates, n).rows[k] == t.rows[k]
  {
    if n > 0 {
      SurvivesExactly(t, names, fates, n - 1, k);
    }
  }

  function CountTo(fates: seq<Fate>, f: Fate, n: nat): nat
    requires n <= |fates|
  {
    if n == 0 then 0 else CountTo(fates, f, n - 1) + if fates[n - 1] == f then 1 else 0
  }

  function Count(fates: seq<Fate>, f: Fate): nat { CountTo(fates, f, |fates|) }

  // What outweighs failures: malformed records, and deleted rows with the Android
  // client only.
  function Weight(client: Client, fates: seq<Fate>, n: nat): nat
    requires n <= |fates|
  {
    CountTo(fates, Bad, n) + if client == Android then CountTo(fates, Gone, n) else 0
  }

  lemma {:induction false} ScoreCounts(client: Client, fates: seq<Fate>, n: nat)
    requires n <= |fates|
    ensures ScoreTo(client, fates, n) == Weight(client, fates, n) - CountTo(fates, Failed, n)
  {
    if n > 0 {
      ScoreCounts(client, fates, n - 1);
    }
  }

  // What the records of the stream name.
  function NamesIn(texts: seq<string>): seq<Option<Key>> { Names(Records(texts)) }

  // A stream of delete batches: each record in turn, each batch with a result that
  // is not negative but possibly the last. fates[i] are those of message i.
  predicate DeletesDone(client: Client, t: Table, texts: seq<string>, fates: seq<seq<Fate>>, done: seq<DbOp>,
                        whole: bool)
  {
    && |Flatten(fates)| == |NamesIn(texts)| && Deleted(t, NamesIn(texts), Flatten(fates), done)
    && Matched(texts, fates) && Scored(client, fates, whole)
  }

  predicate Matched(texts: seq<string>, fates: seq<seq<Fate>>) {
    |fates| == |texts| && forall i :: 0 <= i < |texts| ==> |fates[i]| == |Split(texts[i], RECORD_DEL)|
  }

  predicate Scored(client: Client, fates: seq<seq<Fate>>, whole: bool) {
    && (forall i :: 0 <= i < |fates| - 1 ==> Score(client, fates[i]) >= 0)
    && (whole <==> |fates| == 0 || Score(client, fates[|fates| - 1]) >= 0)
  }

  lemma ScoredMore(client: Client, fates: seq<seq<Fate>>, fs: seq<Fate>, whole: bool)
    requires Scored(client, fates, true) && (whole <==> Score(client, fs) >= 0)
    ensures Scored(client, fates + [fs], whole)
  {
    var all := fates + [fs];
    assert forall i :: 0 <= i < |fates| ==> all[i] == fates[i];
  }

  lemma NamesSnoc(texts: seq<string>, text: string)
    ensures NamesIn(texts + [text]) == NamesIn(texts) + Names(Split(text, RECORD_DEL))
  {
    RecordsSnoc(texts, text);
  }

  lemma DeletesMore(client: Client, t: Table, texts: seq<string>, fates: seq<seq<Fate>>, done: seq<DbOp>,
                    text: string, fs: seq<Fate>, more: seq<DbOp>, whole: bool)
    requires DeletesDone(client, t, texts, fates, done, true)
    requires CanApplyAll(t, done) && |fs| == |Split(text, RECORD_DEL)|
    requires Deleted(ApplyAll(t, done), Names(Split(text, RECORD_DEL)), fs, more)
    requires whole <==> Score(client, fs) >= 0
    ensures DeletesDone(client, t, texts + [text], fates + [fs], done + more, whole)
  {
    ScoredMore(client, fates, fs, whole);
    NamesSnoc(texts, text);
    FlattenLast(fates, fs);
    DeletedApplies(t, NamesIn(texts), Flatten(fates), done);
    DeletedJoin(t, NamesIn(texts), Flatten(fates), done, Names(Split(text, RECORD_DEL)), fs, more);
    assert Matched(texts + [text], fates + [fs]);
  }

  predicate Outweighed(client: Client, fates: seq<Fate>) {
    Count(fates, Failed) <= Weight(client, fates, |fates|)
  }

  /** The stream of deletions goes through if and only if the failures of each
      message are outweighed. */
  lemma GoesThroughExactly(client: Client, t: Table, texts: seq<string>, fates: seq<seq<Fate>>, done: seq<DbOp>,
                           whole: bool)
    requires DeletesDone(client, t, texts, fates, done, whole)
    ensures whole <==> forall i :: 0 <= i < |fates| ==> Outweighed(client, fates[i])
  {
    forall i | 0 <= i < |fates|
      ensures Outweighed(client, fates[i]) <==> Score(client, fates[i]) >= 0
    {
      ScoreCounts(client, fates[i], |fates[i]|);
    }
  }

  lemma {:induction false} CountZero(fates: seq<Fate>, f: Fate, n: nat)
    requires n <= |fates|
    ensures CountTo(fates, f, n) == 0 <==> forall i :: 0 <= i < n ==> fates[i] != f
  {
    if n > 0 {
      CountZero(fates, f, n - 1);
    }
  }

  /** With the desktop client, nothing failed in a stream that went through without
      malformed records. */
  lemma NothingFailed(t: Table, texts: seq<string>, fates: seq<seq<Fate>>, done: seq<DbOp>)
    requires DeletesDone(Desktop, t, texts, fates, done, true)
    requires Bad !in Flatten(fates)
    ensures Failed !in Flatten(fates)
  {
    GoesThroughExactly(Desktop, t, texts, fates, done, true);
    forall i | 0 <= i < |fates|
      ensures Failed !in fates[i]
    {
      if Bad in fates[i] {
        InFlatten(fates, i, Bad);
      }
      CountZero(fates[i], Bad, |fates[i]|);
      CountZero(fates[i], Failed, |fates[i]|);
    }
    if Failed in Flatten(fates) {
      FlattenMember(fates, Failed);
    }
  }

  // --------------------------------------------------------------------------
  // The messages the server writes

  // One message for each group, in the layout of the uploads.
  function SentTexts(flag: Flag, groups: seq<seq<Contact>>): (texts: seq<string>)
    ensures |texts| == |groups| && forall i :: 0 <= i < |texts| ==> texts[i] == Flatten(Encodings(flag, groups[i]))
  {
    seq(|groups|, i requires 0 <= i < |groups| => Flatten(Encodings(flag, groups[i])))
  }

  // No message is empty and no field holds a delimiter.
  predicate Writable(flag: Flag, groups: seq<seq<Contact>>) {
    forall i :: 0 <= i < |groups| ==>
      |groups[i]| > 0 && forall j :: 0 <= j < |groups[i]| ==> AllClean(Layout(flag, groups[i][j]))
  }

  predicate RecordReadAs(flag: Flag, record: string, c: Contact) {
    Columns(record) == Layout(flag, c) + ["."]
  }

  // Record j is read as the fields of contact j.
  predicate ReadAs(flag: Flag, records: seq<string>, cs: seq<Contact>) {
    |records| == |cs| && forall j :: 0 <= j < |cs| ==> RecordReadAs(flag, records[j], cs[j])
  }

  lemma MessageIsRead(flag: Flag, cs: seq<Contact>)
    requires |cs| > 0 && forall j :: 0 <= j < |cs| ==> AllClean(Layout(flag, cs[j]))
    ensures ReadAs(flag, Split(Flatten(Encodings(flag, cs)), RECORD_DEL), cs)
  {
    EncodingsAreRows(flag, cs);
    SplitOfRows(Layouts(flag, cs));
    forall j | 0 <= j < |cs|
      ensures RecordReadAs(flag, Split(Flatten(Encodings(flag, cs)), RECORD_DEL)[j], cs[j])
    {
      ColumnsOfRecord(Layout(flag, cs[j]));
    }
  }

  /** Every record of the server's messages is read as what it was written from. */
  lemma {:induction false} MessagesAreRead(flag: Flag, groups: seq<seq<Contact>>)
    requires Writable(flag, groups)
    ensures ReadAs(flag, Records(SentTexts(flag, groups)), Flatten(groups))
    decreases |groups|
  {
    if |groups| > 0 {
      var n := |groups| - 1;
      var front, last := groups[..n], groups[n];
      MessagesAreRead(flag, front);
      MessageIsRead(flag, last);
      FrontAndLast(groups);
      FlattenLast(front, last);
      SentTextsLast(flag, front, last);
      var texts, text := SentTexts(flag, front), Flatten(Encodings(flag, last));
      RecordsSnoc(texts, text);
      ReadOn(flag, Records(texts), Flatten(front), Split(text, RECORD_DEL), last);
    }
  }

  lemma SentTextsLast(flag: Flag, groups: seq<seq<Contact>>, last: seq<Contact>)
    ensures SentTexts(flag, groups + [last]) == SentTexts(flag, groups) + [Flatten(Encodings(flag, last))]
  {
  }

  lemma ReadOn(flag: Flag, records: seq<string>, cs: seq<Contact>, more: seq<string>, cs': seq<Contact>)
    requires ReadAs(flag, records, cs) && ReadAs(flag, more, cs')
    ensures ReadAs(flag, records + more, cs + cs')
  {
    forall j | 0 <= j < |cs + cs'|
      ensures RecordReadAs(flag, (records + more)[j], (cs + cs')[j])
    {
      SameItem(records, more, cs, cs', j);
    }
  }

  lemma SameItem<S, T>(a: seq<S>, a': seq<S>, b: seq<T>, b': seq<T>, j: nat)
    requires |a| == |b| && |a'| == |b'| && j < |a + a'|
    ensures j < |a| ==> (a + a')[j] == a[j] && (b + b')[j] == b[j]
    ensures j >= |a| ==> (a + a')[j] == a'[j - |a|] && (b + b')[j] == b'[j - |a|]
  {
  }

  function Puts(cs: seq<Contact>): (recs: seq<Sent>)
    ensures |recs| == |cs| && forall i :: 0 <= i < |recs| ==> recs[i] == Put(cs[i])
  {
    seq(|cs|, i requires 0 <= i < |cs| => Put(cs[i]))
  }

  function Drops(cs: seq<Contact>): (recs: seq<Sent>)
    ensures |recs| == |cs| && forall i :: 0 <= i < |recs| ==> recs[i] == Drop(KeyOf(cs[i]))
  {
    seq(|cs|, i requires 0 <= i < |cs| => Drop(KeyOf(cs[i])))
  }

  lemma {:induction false} HeardUpserts(ups: seq<DbOp>, cs: seq<Contact>)
    requires |ups| == |cs| && AllUpserts(ups) && forall i :: 0 <= i < |ups| ==> ups[i].contact == cs[i]
    ensures Heard(ups) == Puts(cs)
    decreases |ups|
  {
    if |ups| > 0 {
      HeardUpserts(ups[1..], cs[1..]);
      assert Puts(cs) == [Put(cs[0])] + Puts(cs[1..]);
    }
  }

  /** A drained stream of select messages was heard as the server meant it. */
  lemma SelectsAreHeard(groups: seq<seq<Contact>>, ups: seq<DbOp>)
    requires Writable(InsertFlag, groups) && SelectsDone(SentTexts(InsertFlag, groups), ups, true)
    ensures Heard(ups) == Puts(Flatten(groups))
  {
    MessagesAreRead(InsertFlag, groups);
    var records, cs := Records(SentTexts(InsertFlag, groups)), Flatten(groups);
    forall i | 0 <= i < |ups|
      ensures ups[i].contact == cs[i]
    {
      assert RecordReadAs(InsertFlag, records[i], cs[i]);
      assert Parsed(records[i]) == Some(ups[i].contact);
    }
    HeardUpserts(ups, cs);
  }

  function KeysOf(cs: seq<Contact>): (ks: seq<Option<Key>>)
    ensures |ks| == |cs| && forall i :: 0 <= i < |ks| ==> ks[i] == Some(KeyOf(cs[i]))
  {
    seq(|cs|, i requires 0 <= i < |cs| => Some(KeyOf(cs[i])))
  }

  /** The records of the delete messages name the keys the server meant. */
  lemma DeletesAreNamed(groups: seq<seq<Contact>>)
    requires Writable(DeleteFlag, groups)
    ensures NamesIn(SentTexts(DeleteFlag, groups)) == KeysOf(Flatten(groups))
  {
    MessagesAreRead(DeleteFlag, groups);
    ReadNames(Records(SentTexts(DeleteFlag, groups)), Flatten(groups));
  }

  lemma ReadNames(records: seq<string>, cs: seq<Contact>)
    requires ReadAs(DeleteFlag, records, cs)
    ensures Names(records) == KeysOf(cs)
  {
    forall j | 0 <= j < |cs|
      ensures Named(records[j]) == Some(KeyOf(cs[j]))
    {
      assert RecordReadAs(DeleteFlag, records[j], cs[j]);
    }
  }
}
