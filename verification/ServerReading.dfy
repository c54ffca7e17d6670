/**
  How the server takes the messages of an upload apart: one field for each parameter
  of its statement, up to a delimiter, and then the end of the record.
*/
module ServerReading {
  import opened RecordCodec
  import opened UploadBatches
  import opened MsyncTable
  import opened UploadTexts
  import opened ServerRows

  // The fields of one record, and the text behind it.
  datatype FieldsRead = FieldsRead(fields: seq<string>, rest: string)

  predicate IsDelimiter(c: char) { c == FIELD_DEL || c == RECORD_DEL }

  function FieldEnd(s: string): (j: nat)
    ensures j <= |s|
  {
    if s == "" || IsDelimiter(s[0]) then 0 else FieldEnd(s[1..]) + 1
  }

  lemma {:induction false} FieldIsClean(s: string)
    ensures Clean(s[..FieldEnd(s)])
    ensures FieldEnd(s) < |s| ==> IsDelimiter(s[FieldEnd(s)])
  {
    if s != "" && !IsDelimiter(s[0]) {
      FieldIsClean(s[1..]);
      var j := FieldEnd(s[1..]);
      assert s[..j + 1] == [s[0]] + s[1..][..j];
    }
  }

  // What the server reads of a record of n fields. Behind the last one there must
  // be a record delimiter, but a field delimiter may come in between.
  function ReadFields(s: string, n: nat): (r: Option<FieldsRead>)
    ensures r.Some? ==> |r.value.fields| == n && AllClean(r.value.fields) && |r.value.rest| < |s|
    decreases n
  {
    if n == 0 then if s != "" && s[0] == RECORD_DEL then Some(FieldsRead([], s[1..])) else None
    else
      var j := FieldEnd(s);
      FieldIsClean(s);
      if j == |s| then None
      else if s[j] == RECORD_DEL then if n == 1 then Some(FieldsRead([s[..j]], s[j + 1..])) else None
      else match ReadFields(s[j + 1..], n - 1)
        case None => None
        case Some(t) => Some(FieldsRead([s[..j]] + t.fields, t.rest))
  }

  lemma {:induction false} FieldEndIs(a: string, d: char, s: string)
    requires Clean(a) && IsDelimiter(d)
    ensures FieldEnd(a + [d] + s) == |a|
    ensures (a + [d] + s)[..|a|] == a && (a + [d] + s)[|a| + 1..] == s
  {
    if a != "" {
      assert (a + [d] + s)[1..] == a[1..] + [d] + s;
      FieldEndIs(a[1..], d, s);
    }
  }

  /** A text of these pieces between field delimiters is read as a record of n
      fields exactly when there are n pieces, or one more and that one is empty. */
  lemma {:induction false} ReadsExactly(pieces: seq<string>, rest: string, n: nat)
    requires |pieces| >= 1 && n >= 1 && AllClean(pieces)
    ensures ReadFields(EncodeFields(pieces) + rest, n) ==
              if |pieces| == n then Some(FieldsRead(pieces, rest))
              else if |pieces| == n + 1 && pieces[n] == "" then Some(FieldsRead(pieces[..n], rest))
              else None
    decreases n
  {
    if |pieces| == 1 {
      OnePiece(pieces[0], rest, n);
      assert pieces == [pieces[0]];
    } else {
      assert pieces == [pieces[0]] + pieces[1..];
      OnePieceMore(pieces[0], pieces[1..], rest, n);
      if n > 1 {
        ReadsExactly(pieces[1..], rest, n - 1);
      }
      assert |pieces| > n ==> pieces[..n] == [pieces[0]] + pieces[1..][..n - 1];
    }
  }

  lemma OnePiece(piece: string, rest: string, n: nat)
    requires n >= 1 && Clean(piece)
    ensures ReadFields(EncodeFields([piece]) + rest, n) == if n == 1 then Some(FieldsRead([piece], rest)) else None
  {
    assert EncodeFields([piece]) + rest == piece + [RECORD_DEL] + rest;
    FieldEndIs(piece, RECORD_DEL, rest);
  }

  lemma OnePieceMore(piece: string, others: seq<string>, rest: string, n: nat)
    requires n >= 1 && Clean(piece) && |others| >= 1 && AllClean(others)
    ensures var more := ReadFields(EncodeFields(others) + rest, n - 1);
            ReadFields(EncodeFields([piece] + others) + rest, n) ==
              if n == 1 then if others == [""] then Some(FieldsRead([piece], rest)) else None
              else match more case None => None case Some(t) => Some(FieldsRead([piece] + t.fields, t.rest))
  {
    var s := EncodeFields(others) + rest;
    assert ([piece] + others)[1..] == others;
    assert EncodeFields([piece] + others) + rest == piece + [FIELD_DEL] + s;
    FieldEndIs(piece, FIELD_DEL, s);
    NextIsRecordEnd(others, rest);
    assert [piece] + [] == [piece];
  }

  lemma NextIsRecordEnd(pieces: seq<string>, rest: string)
    requires |pieces| >= 1 && AllClean(pieces)
    ensures var s := EncodeFields(pieces) + rest;
            (s[0] == RECORD_DEL <==> pieces == [""]) && (pieces == [""] ==> s[1..] == rest)
  {
    var s := EncodeFields(pieces) + rest;
    if pieces[0] != "" {
      assert s[0] == pieces[0][0];
      assert Clean(pieces[0]);
    } else if |pieces| > 1 {
      assert s[0] == FIELD_DEL;
    } else {
      assert pieces == [""];
      assert s == [RECORD_DEL] + rest;
    }
  }

  // --------------------------------------------------------------------------
  // A message

  function ReadRecords(s: string, n: nat): (r: Option<seq<seq<string>>>)
    ensures r.Some? ==> forall i :: 0 <= i < |r.value| ==> |r.value[i]| == n && AllClean(r.value[i])
    decreases |s|
  {
    if s == "" then Some([])
    else match ReadFields(s, n)
      case None => None
      case Some(t) =>
        match ReadRecords(t.rest, n)
        case None => None
        case Some(rows) => Some([t.fields] + rows)
  }

  lemma {:induction false} CleanRowsAreRead(rows: seq<seq<string>>, n: nat)
    requires n >= 1 && forall i :: 0 <= i < |rows| ==> |rows[i]| == n && AllClean(rows[i])
    ensures ReadRecords(EncodeRows(rows), n) == Some(rows)
  {
    if |rows| > 0 {
      CleanRowsAreRead(rows[1..], n);
      ReadsExactly(rows[0], EncodeRows(rows[1..]), n);
      assert rows == [rows[0]] + rows[1..];
    }
  }

  /** The server reads rows as they were written just when no field contains a
      delimiter. */
  lemma RowsAreReadExactly(rows: seq<seq<string>>, n: nat)
    requires n >= 1 && forall i :: 0 <= i < |rows| ==> |rows[i]| == n
    ensures ReadRecords(EncodeRows(rows), n) == Some(rows) <==> forall i :: 0 <= i < |rows| ==> AllClean(rows[i])
  {
    if forall i :: 0 <= i < |rows| ==> AllClean(rows[i]) {
      CleanRowsAreRead(rows, n);
    }
  }

  function Width(flag: Flag): nat { if flag == DeleteFlag then 2 else 8 }

  // The record the server's statement for this flag is given.
  function FromFields(flag: Flag, fs: seq<string>): (c: Contact)
    requires |fs| == Width(flag)
    ensures Layout(flag, c) == fs
  {
    match flag
    case InsertFlag => Contact(fs[0], fs[1], fs[2], fs[3], fs[4], fs[5], fs[6], fs[7])
    case UpdateFlag => Contact(fs[6], fs[7], fs[0], fs[1], fs[2], fs[3], fs[4], fs[5])
    case DeleteFlag => Tombstone(Key(fs[0], fs[1]))
  }

  function ReadUploads(flag: Flag, rows: seq<seq<string>>): (us: seq<Upload>)
    requires forall i :: 0 <= i < |rows| ==> |rows[i]| == Width(flag)
    ensures |us| == |rows| && forall i :: 0 <= i < |us| ==> us[i] == Upload(flag, FromFields(flag, rows[i]))
  {
    seq(|rows|, i requires 0 <= i < |rows| => Upload(flag, FromFields(flag, rows[i])))
  }

  predicate CleanUpload(u: Upload) { AllClean(Layout(u.flag, u.contact)) }

  predicate CleanUploads(us: seq<Upload>) { forall i :: 0 <= i < |us| ==> CleanUpload(us[i]) }

  // A message without any text is refused.
  function ReadMessage(p: Packet): (r: Option<seq<Upload>>)
    ensures r.Some? ==> CleanUploads(r.value)
  {
    if p.text == "" then None
    else match ReadRecords(p.text, Width(p.flag))
      case None => None
      case Some(rows) => Some(ReadUploads(p.flag, rows))
  }

  // None when some message is refused, and the session with it.
  function ReadMessages(ps: seq<Packet>): (r: Option<seq<Upload>>)
    ensures r.Some? ==> CleanUploads(r.value)
    decreases |ps|
  {
    if |ps| == 0 then Some([])
    else match ReadMessage(ps[0])
      case None => None
      case Some(us) =>
        match ReadMessages(ps[1..])
        case None => None
        case Some(more) => Some(us + more)
  }

  lemma {:induction false} ReadBoth(a: seq<Packet>, b: seq<Packet>)
    ensures ReadMessages(a + b) ==
              if ReadMessages(a).Some? && ReadMessages(b).Some?
              then Some(ReadMessages(a).value + ReadMessages(b).value) else None
    decreases |a|
  {
    if |a| == 0 {
      assert a + b == b;
      if ReadMessages(b).Some? {
        assert [] + ReadMessages(b).value == ReadMessages(b).value;
      }
    } else {
      assert (a + b)[1..] == a[1..] + b;
      ReadBoth(a[1..], b);
      if ReadMessage(a[0]).Some? && ReadMessages(a[1..]).Some? && ReadMessages(b).Some? {
        ConcatAssociates(ReadMessage(a[0]).value, ReadMessages(a[1..]).value, ReadMessages(b).value);
      }
    }
  }

  lemma {:induction false} NoneRead(ps: seq<Packet>, i: nat)
    requires i < |ps| && ReadMessage(ps[i]) == None
    ensures ReadMessages(ps) == None
    decreases i
  {
    if i > 0 {
      NoneRead(ps[1..], i - 1);
    }
  }

  // --------------------------------------------------------------------------
  // The messages of a session

  // A deletion travels as a key only.
  predicate Proper(flag: Flag, cs: seq<Contact>) {
    flag == DeleteFlag ==> forall i :: 0 <= i < |cs| ==> cs[i] == Tombstone(KeyOf(cs[i]))
  }

  lemma GroupIsRead(flag: Flag, cs: seq<Contact>)
    requires |cs| > 0 && Proper(flag, cs) && CleanUploads(Uploads(flag, cs))
    ensures ReadMessage(Packet(flag, Flatten(Encodings(flag, cs)))) == Some(Uploads(flag, cs))
  {
    var rows := Layouts(flag, cs);
    EncodingsAreRows(flag, cs);
    forall i | 0 <= i < |cs|
      ensures |rows[i]| == Width(flag) && AllClean(rows[i]) && FromFields(flag, rows[i]) == cs[i]
    {
      assert CleanUpload(Uploads(flag, cs)[i]);
    }
    CleanRowsAreRead(rows, Width(flag));
    FlattenLonger(Encodings(flag, cs));
    assert ReadUploads(flag, rows) == Uploads(flag, cs);
  }

  lemma {:induction false} BatchesAreRead(flag: Flag, cs: seq<Contact>, batches: seq<seq<string>>)
    requires Flatten(batches) == Encodings(flag, cs) && Proper(flag, cs) && CleanUploads(Uploads(flag, cs))
    requires forall i :: 0 <= i < |batches| ==> Flatten(batches[i]) != ""
    ensures ReadMessages(PacketsOf(flag, Texts(batches))) == Some(Uploads(flag, cs))
    decreases |batches|
  {
    var ps := PacketsOf(flag, Texts(batches));
    if |batches| > 0 {
      var m, rest := |batches[0]|, batches[1..];
      FirstBatch(flag, cs, batches);
      UploadsSplit(flag, cs, m);
      GroupIsRead(flag, cs[..m]);
      BatchesAreRead(flag, cs[m..], rest);
      assert ps[1..] == PacketsOf(flag, Texts(rest));
    }
  }

  lemma FirstBatch(flag: Flag, cs: seq<Contact>, batches: seq<seq<string>>)
    requires |batches| > 0 && Flatten(batches) == Encodings(flag, cs) && Flatten(batches[0]) != ""
    ensures var m := |batches[0]|;
      && 0 < m <= |cs|
      && Encodings(flag, cs[..m]) == batches[0] && Encodings(flag, cs[m..]) == Flatten(batches[1..])
  {
    var m := |batches[0]|;
    assert Encodings(flag, cs)[..m] == batches[0] && Encodings(flag, cs)[m..] == Flatten(batches[1..]);
    assert Encodings(flag, cs[..m]) == Encodings(flag, cs)[..m];
    assert Encodings(flag, cs[m..]) == Encodings(flag, cs)[m..];
  }

  lemma UploadsSplit(flag: Flag, cs: seq<Contact>, m: nat)
    requires m <= |cs|
    ensures Uploads(flag, cs) == Uploads(flag, cs[..m]) + Uploads(flag, cs[m..])
    ensures CleanUploads(Uploads(flag, cs)) ==>
              CleanUploads(Uploads(flag, cs[..m])) && CleanUploads(Uploads(flag, cs[m..]))
  {
    var us := Uploads(flag, cs);
    assert us[..m] == Uploads(flag, cs[..m]) && us[m..] == Uploads(flag, cs[m..]);
  }

  // The loop sends an empty message in front of an oversized first record.
  predicate FirstFits(flag: Flag, cs: seq<Contact>) {
    |cs| > 0 ==> |EncodeContact(flag, cs[0])| <= HUGE_STRING_LENGTH
  }

  lemma FlagIsReadExactly(flag: Flag, cs: seq<Contact>)
    requires Proper(flag, cs)
    ensures ReadMessages(PacketsFor(flag, cs)) == Some(Uploads(flag, cs)) <==>
            CleanUploads(Uploads(flag, cs)) && FirstFits(flag, cs)
    ensures ReadMessages(PacketsFor(flag, cs)).Some? ==> FirstFits(flag, cs)
  {
    var batches := Batches([], Encodings(flag, cs));
    BatchesPartition(Encodings(flag, cs));
    BatchSizes(Encodings(flag, cs));
    if !FirstFits(flag, cs) {
      var i :| 0 <= i < |batches| && |Flatten(batches[i])| == 0;
      NoneRead(PacketsFor(flag, cs), i);
    } else if CleanUploads(Uploads(flag, cs)) {
      BatchesAreRead(flag, cs, batches);
    }
  }

  function With(us: seq<Upload>, flag: Flag): seq<Contact>
    decreases |us|
  {
    if |us| == 0 then [] else (if us[0].flag == flag then [us[0].contact] else []) + With(us[1..], flag)
  }

  lemma {:induction false} WithAppend(a: seq<Upload>, b: seq<Upload>, flag: Flag)
    ensures With(a + b, flag) == With(a, flag) + With(b, flag)
    decreases |a|
  {
    if |a| == 0 {
      assert a + b == b;
    } else {
      assert (a + b)[1..] == a[1..] + b;
      WithAppend(a[1..], b, flag);
      ConcatAssociates(if a[0].flag == flag then [a[0].contact] else [], With(a[1..], flag), With(b, flag));
    }
  }

  lemma {:induction false} WithUploads(flag: Flag, cs: seq<Contact>, other: Flag)
    ensures With(Uploads(flag, cs), other) == if flag == other then cs else []
    decreases |cs|
  {
    if |cs| > 0 {
      assert Uploads(flag, cs)[1..] == Uploads(flag, cs[1..]);
      WithUploads(flag, cs[1..], other);
      assert cs == [cs[0]] + cs[1..];
    }
  }

  lemma WithParts(ins: seq<Contact>, upd: seq<Contact>, del: seq<Contact>, us: seq<Upload>)
    requires IsUploaded(ins, upd, del, us)
    ensures With(us, InsertFlag) == ins && With(us, UpdateFlag) == upd && With(us, DeleteFlag) == del
  {
    WithPart(ins, upd, del, us, InsertFlag);
    WithPart(ins, upd, del, us, UpdateFlag);
    WithPart(ins, upd, del, us, DeleteFlag);
    assert ins + [] + [] == ins && [] + upd + [] == upd && [] + [] + del == del;
  }

  lemma WithPart(ins: seq<Contact>, upd: seq<Contact>, del: seq<Contact>, us: seq<Upload>, flag: Flag)
    requires IsUploaded(ins, upd, del, us)
    ensures With(us, flag) == (if flag == InsertFlag then ins else []) + (if flag == UpdateFlag then upd else []) +
                              (if flag == DeleteFlag then del else [])
  {
    var a, b, c := Uploads(InsertFlag, ins), Uploads(UpdateFlag, upd), Uploads(DeleteFlag, del);
    WithAppend(a, b, flag);
    WithAppend(a + b, c, flag);
    WithUploads(InsertFlag, ins, flag);
    WithUploads(UpdateFlag, upd, flag);
    WithUploads(DeleteFlag, del, flag);
  }

  // The messages in which these records travel, and what the server reads in them.
  function Messages(us: seq<Upload>): seq<Packet> {
    AllPackets(With(us, InsertFlag), With(us, UpdateFlag), With(us, DeleteFlag))
  }

  function Told(us: seq<Upload>): (r: Option<seq<Upload>>)
    ensures r.Some? ==> CleanUploads(r.value)
  {
    ReadMessages(Messages(us))
  }

  // No field contains a delimiter, and no upload begins with an oversized record.
  predicate Readable(us: seq<Upload>) {
    && CleanUploads(us)
    && FirstFits(InsertFlag, With(us, InsertFlag))
    && FirstFits(UpdateFlag, With(us, UpdateFlag))
    && FirstFits(DeleteFlag, With(us, DeleteFlag))
  }

  /** The server reads the pending list in the messages of a session if and only if
      no uploaded field contains a delimiter and no first record is oversized. */
  lemma ToldExactly(t: Table, us: seq<Upload>)
    requires IsPendingList(t, us)
    ensures Told(us) == Some(us) <==> Readable(us)
  {
    var ins, upd, del :|
      && IsSelection(t, InsertFlag, ins) && IsSelection(t, UpdateFlag, upd) && IsSelection(t, DeleteFlag, del)
      && IsUploaded(ins, upd, del, us);
    TombsAreProper(t, del);
    WithParts(ins, upd, del, us);
    PartsReadExactly(ins, upd, del, us);
  }

  lemma TombsAreProper(t: Table, del: seq<Contact>)
    requires IsSelection(t, DeleteFlag, del)
    ensures Proper(DeleteFlag, del)
  {
    forall i | 0 <= i < |del|
      ensures del[i] == Tombstone(KeyOf(del[i]))
    {
      assert del[i] in del;
      assert Selects(t, DeleteFlag, del[i]);
    }
  }

  lemma PartsReadExactly(ins: seq<Contact>, upd: seq<Contact>, del: seq<Contact>, us: seq<Upload>)
    requires Proper(DeleteFlag, del) && IsUploaded(ins, upd, del, us)
    ensures ReadMessages(AllPackets(ins, upd, del)) == Some(us) <==>
            CleanUploads(us) && FirstFits(InsertFlag, ins) && FirstFits(UpdateFlag, upd) && FirstFits(DeleteFlag, del)
  {
    var a, b, c := PacketsFor(InsertFlag, ins), PacketsFor(UpdateFlag, upd), PacketsFor(DeleteFlag, del);
    ReadBoth(a, b);
    ReadBoth(a + b, c);
    FlagIsReadExactly(InsertFlag, ins);
    FlagIsReadExactly(UpdateFlag, upd);
    FlagIsReadExactly(DeleteFlag, del);
    CleanParts(Uploads(InsertFlag, ins), Uploads(UpdateFlag, upd), Uploads(DeleteFlag, del));
  }

  lemma CleanParts(a: seq<Upload>, b: seq<Upload>, c: seq<Upload>)
    ensures CleanUploads(a + b + c) <==> CleanUploads(a) && CleanUploads(b) && CleanUploads(c)
  {
    var all := a + b + c;
    assert forall i :: 0 <= i < |a| ==> a[i] == all[i];
    assert forall i :: 0 <= i < |b| ==> b[i] == all[|a| + i];
    assert forall i :: 0 <= i < |c| ==> c[i] == all[|a| + |b| + i];
  }

  // --------------------------------------------------------------------------
  // Records the server reads otherwise than they were meant

  /** A field that contains one field delimiter and is followed by an empty last
      field, or is the last one and ends there: the server takes the record, with
      the fields behind shifted by one. */
  lemma ShiftedRecord(fields: seq<string>, i: nat, a: string, b: string, rest: string)
    requires i < |fields| && fields[i] == a + [FIELD_DEL] + b && Clean(a) && Clean(b)
    requires forall j :: 0 <= j < |fields| && j != i ==> Clean(fields[j])
    requires if i == |fields| - 1 then b == "" else fields[|fields| - 1] == ""
    ensures ReadFields(EncodeFields(fields) + rest, |fields|) ==
              Some(FieldsRead((fields[..i] + [a, b] + fields[i + 1..])[..|fields|], rest))
  {
    var pieces := fields[..i] + [a, b] + fields[i + 1..];
    CutField(fields, i, a, b);
    assert pieces[|fields|] == "";
    ReadsExactly(pieces, rest, |fields|);
  }

  lemma {:induction false} CutField(fields: seq<string>, i: nat, a: string, b: string)
    requires i < |fields| && fields[i] == a + [FIELD_DEL] + b
    ensures Join(fields[..i] + [a, b] + fields[i + 1..], FIELD_DEL) == Join(fields, FIELD_DEL)
    decreases i
  {
    var pieces := fields[..i] + [a, b] + fields[i + 1..];
    if i == 0 {
      assert pieces[1..] == [b] + fields[1..];
      assert pieces[1..][1..] == fields[1..];
      if |fields| > 1 {
        var r := Join(fields[1..], FIELD_DEL);
        assert a + [FIELD_DEL] + (b + [FIELD_DEL] + r) == a + [FIELD_DEL] + b + [FIELD_DEL] + r;
      }
    } else {
      assert pieces[1..] == fields[1..][..i - 1] + [a, b] + fields[1..][i..];
      CutField(fields[1..], i - 1, a, b);
    }
  }

  /** So a new contact whose company contains a field delimiter and whose address is
      empty reaches the server as another contact. */
  lemma ShiftedContact(c: Contact, a: string, b: string)
    requires c.company == a + [FIELD_DEL] + b && Clean(a) && Clean(b) && c.address == ""
    requires Clean(c.id) && Clean(c.username) && Clean(c.name) && Clean(c.eMail)
    requires Clean(c.companyPhone) && Clean(c.mobilePhone) && FirstFits(InsertFlag, [c])
    ensures Told([Upload(InsertFlag, c)]) == Some([Upload(InsertFlag, Shifted(c, a, b))])
  {
    var fields, text := Layout(InsertFlag, c), EncodeContact(InsertFlag, c);
    OneInsertMessage(c);
    EncodeContactIsLayout(InsertFlag, c);
    assert text == EncodeFields(fields) + "";
    CompanyField(c, fields);
    ShiftedRecord(fields, 2, a, b, "");
    ShiftedFields(c, a, b, fields);
    OneRecordIsRead(text, Layout(InsertFlag, Shifted(c, a, b)));
  }

  lemma CompanyField(c: Contact, fields: seq<string>)
    requires fields == Layout(InsertFlag, c)
    requires Clean(c.id) && Clean(c.username) && Clean(c.name) && Clean(c.eMail)
    requires Clean(c.companyPhone) && Clean(c.mobilePhone) && Clean(c.address)
    ensures |fields| == 8 && fields[2] == c.company && fields[7] == c.address
    ensures forall j :: 0 <= j < |fields| && j != 2 ==> Clean(fields[j])
  {
  }

  lemma ShiftedFields(c: Contact, a: string, b: string, fields: seq<string>)
    requires fields == Layout(InsertFlag, c)
    ensures (fields[..2] + [a, b] + fields[3..])[..8] == Layout(InsertFlag, Shifted(c, a, b))
  {
  }

  lemma OneInsertMessage(c: Contact)
    requires FirstFits(InsertFlag, [c])
    ensures Told([Upload(InsertFlag, c)]) == ReadMessages([Packet(InsertFlag, EncodeContact(InsertFlag, c))])
  {
    WithOne(c);
    OnePacket(c);
  }

  lemma WithOne(c: Contact)
    ensures var us := [Upload(InsertFlag, c)];
            us == Uploads(InsertFlag, [c]) &&
            With(us, InsertFlag) == [c] && With(us, UpdateFlag) == [] && With(us, DeleteFlag) == []
  {
    assert Uploads(InsertFlag, [c]) == [Upload(InsertFlag, c)];
    WithUploads(InsertFlag, [c], InsertFlag);
    WithUploads(InsertFlag, [c], UpdateFlag);
    WithUploads(InsertFlag, [c], DeleteFlag);
  }

  lemma OneRecordIsRead(text: string, fields: seq<string>)
    requires text != "" && |fields| == 8 && ReadFields(text, 8) == Some(FieldsRead(fields, ""))
    ensures ReadMessages([Packet(InsertFlag, text)]) == Some([Upload(InsertFlag, FromFields(InsertFlag, fields))])
  {
    var packet, u := Packet(InsertFlag, text), Upload(InsertFlag, FromFields(InsertFlag, fields));
    assert ReadRecords("", 8) == Some([]) && [fields] + [] == [fields];
    assert ReadRecords(text, 8) == Some([fields]);
    assert ReadUploads(InsertFlag, [fields]) == [u];
    assert [packet][1..] == [] && [u] + [] == [u];
  }

  function Shifted(c: Contact, a: string, b: string): Contact {
    Contact(c.id, c.username, a, b, c.name, c.eMail, c.companyPhone, c.mobilePhone)
  }

  lemma OnePacket(c: Contact)
    requires FirstFits(InsertFlag, [c])
    ensures AllPackets([c], [], []) == [Packet(InsertFlag, EncodeContact(InsertFlag, c))]
  {
    var enc := EncodeContact(InsertFlag, c);
    assert Encodings(InsertFlag, [c]) == [enc] && Encodings(UpdateFlag, []) == [] && Encodings(DeleteFlag, []) == [];
    FlattenOne(enc);
    assert Batches([], [enc]) == [[enc]] by {
      assert [enc][1..] == [] && [] + [enc] == [enc];
    }
    assert PacketsFor(UpdateFlag, []) == [] && PacketsFor(DeleteFlag, []) == [];
  }

  /** What a server holds of a key after reading any messages is what it held, or
      holds no delimiter. */
  lemma {:induction false} ToldRowsAreClean(remote: Rows, told: seq<Upload>, k: Key, c: Contact)
    requires CleanUploads(told) && At(TellAll(remote, told), k) == Some(c)
    ensures At(remote, k) == Some(c) || AllClean(Layout(InsertFlag, c))
    decreases |told|
  {
    if |told| > 0 {
      var u := told[0];
      assert CleanUpload(u);
      assert forall i :: 0 <= i < |told[1..]| ==> told[1..][i] == told[i + 1];
      ToldRowsAreClean(Tell(remote, u), told[1..], k, c);
      if u.flag == UpdateFlag {
        UpdateIsClean(u.contact);
      }
    }
  }

  lemma UpdateIsClean(c: Contact)
    requires AllClean(Layout(UpdateFlag, c))
    ensures AllClean(Layout(InsertFlag, c))
  {
    var fs := Layout(UpdateFlag, c);
    assert Clean(fs[0]) && Clean(fs[1]) && Clean(fs[2]) && Clean(fs[3]);
    assert Clean(fs[4]) && Clean(fs[5]) && Clean(fs[6]) && Clean(fs[7]);
  }

  // --------------------------------------------------------------------------
  // The server's code

  /** The fields of the record at gnIdx, and where the next one begins: 0 when they
      are as many as the statement has parameters and the record ends behind them. */
  method GetParameters(ptr: string, gnIdx: nat, numParams: nat) returns (r: int, params: seq<string>, next: nat)
    requires gnIdx < |ptr| && numParams > 0
    ensures (r == 0 || r == -1) && (r == 0 ==> gnIdx < next <= |ptr|)
    ensures ReadFields(ptr[gnIdx..], numParams) == if r == 0 then Some(FieldsRead(params, ptr[next..])) else None
  {
    next := gnIdx;
    var idx;
    params, idx := ScanFields(ptr, gnIdx, numParams);
    if idx == |ptr| || ptr[idx] != RECORD_DEL || |params| != numParams {
      return -1, params, next;
    }
    r, next := 0, idx + 1;
  }

  // The loop over the parameters.
  method ScanFields(ptr: string, gnIdx: nat, numParams: nat) returns (params: seq<string>, idx: nat)
    requires gnIdx < |ptr| && numParams > 0
    ensures gnIdx <= idx <= |ptr| && EndsWith(ReadFields(ptr[gnIdx..], numParams), params, ptr, idx, numParams)
  {
    params, idx := [], gnIdx;
    ghost var whole, left := ReadFields(ptr[gnIdx..], numParams), numParams;
    FirstField(whole);
    while |params| < numParams && idx < |ptr|
      invariant gnIdx <= idx <= |ptr| && |params| + left == numParams
      invariant Midway(whole, params, ptr, idx, left)
      decreases left
    {
      var last;
      params, idx, last := TakeField(whole, params, ptr, idx, left);
      if last {
        return;
      }
      left := left - 1;
    }
    BehindFields(whole, params, ptr, idx, left);
  }

  // One parameter. last: the record ends behind it, or the message does.
  method TakeField(ghost whole: Option<FieldsRead>, fields: seq<string>, ptr: string, sIdx: nat, ghost left: nat)
    returns (params: seq<string>, idx: nat, last: bool)
    requires sIdx < |ptr| && left > 0 && Midway(whole, fields, ptr, sIdx, left)
    ensures sIdx <= idx <= |ptr| && |params| == |fields| + 1
    ensures if last then EndsWith(whole, params, ptr, idx, |fields| + left)
            else Midway(whole, params, ptr, idx, left - 1)
  {
    var field;
    field, idx := ScanField(ptr, sIdx);
    OneFieldAt(whole, fields, ptr, sIdx, idx, left);
    params := fields + [field];
    last := idx == |ptr| || ptr[idx] == RECORD_DEL;
    if !last {
      idx := idx + 1;
    }
  }

  // Reading goes on at idx.
  predicate Midway(whole: Option<FieldsRead>, params: seq<string>, ptr: string, idx: nat, left: nat)
    requires idx <= |ptr|
  {
    Resumes(whole, params, ReadFields(ptr[idx..], left))
  }

  /** The records the statement is executed for, one after the other: 0 when the
      whole message was taken. */
  method ProcessStmt(dataBuffer: string, numParams: nat) returns (ret: int, rows: seq<seq<string>>)
    requires numParams > 0
    ensures ret == 0 || ret == -1
    ensures ReadRecords(dataBuffer, numParams).Some? <==> ret == 0
    ensures ret == 0 ==> ReadRecords(dataBuffer, numParams) == Some(rows)
  {
    var gnIdx := 0;
    rows := [];
    assert dataBuffer[0..] == dataBuffer;
    NoRecordYet(ReadRecords(dataBuffer, numParams));
    while gnIdx < |dataBuffer|
      invariant gnIdx <= |dataBuffer|
      invariant ReadsOn(ReadRecords(dataBuffer, numParams), rows, ReadRecords(dataBuffer[gnIdx..], numParams))
    {
      var params;
      ghost var s := dataBuffer[gnIdx..];
      ret, params, gnIdx := GetParameters(dataBuffer, gnIdx, numParams);
      if ret < 0 {
        return;
      }
      OneRecord(ReadRecords(dataBuffer, numParams), rows, s, numParams);
      rows := rows + [params];
    }
    ret := 0;
    assert rows + [] == rows;
  }

  // Reading goes on behind the records read so far.
  predicate ReadsOn(whole: Option<seq<seq<string>>>, rows: seq<seq<string>>, more: Option<seq<seq<string>>>) {
    whole == if more.Some? then Some(rows + more.value) else None
  }

  lemma NoRecordYet(whole: Option<seq<seq<string>>>)
    ensures ReadsOn(whole, [], whole)
  {
    if whole.Some? {
      assert [] + whole.value == whole.value;
    }
  }

  lemma OneRecord(whole: Option<seq<seq<string>>>, rows: seq<seq<string>>, s: string, n: nat)
    requires s != "" && ReadFields(s, n).Some? && ReadsOn(whole, rows, ReadRecords(s, n))
    ensures ReadsOn(whole, rows + [ReadFields(s, n).value.fields], ReadRecords(ReadFields(s, n).value.rest, n))
  {
    var t := ReadFields(s, n).value;
    if ReadRecords(t.rest, n).Some? {
      ConcatAssociates(rows, [t.fields], ReadRecords(t.rest, n).value);
    }
  }

  predicate IsFieldEnd(ptr: string, start: nat, end: nat) {
    start <= end <= |ptr| && end - start == FieldEnd(ptr[start..])
  }

  // The scan of one field.
  method ScanField(ptr: string, start: nat) returns (field: string, idx: nat)
    requires start <= |ptr|
    ensures IsFieldEnd(ptr, start, idx) && field == ptr[start..idx]
  {
    idx := start;
    while idx < |ptr| && ptr[idx] != FIELD_DEL && ptr[idx] != RECORD_DEL
      invariant start <= idx <= |ptr|
      invariant FieldEnd(ptr[start..]) == idx - start + FieldEnd(ptr[idx..])
    {
      assert ptr[idx..][1..] == ptr[idx + 1..];
      idx := idx + 1;
    }
    field := ptr[start..idx];
  }

  // Reading goes on behind the fields read so far.
  predicate Resumes(whole: Option<FieldsRead>, fields: seq<string>, more: Option<FieldsRead>) {
    whole == match more
             case None => None
             case Some(t) => Some(FieldsRead(fields + t.fields, t.rest))
  }

  lemma FirstField(whole: Option<FieldsRead>)
    ensures Resumes(whole, [], whole)
  {
    if whole.Some? {
      assert [] + whole.value.fields == whole.value.fields;
    }
  }

  lemma OneField(whole: Option<FieldsRead>, fields: seq<string>, s: string, left: nat)
    requires left > 0 && Resumes(whole, fields, ReadFields(s, left))
    ensures var j := FieldEnd(s);
      && (j == |s| ==> whole == None)
      && (j < |s| && s[j] == RECORD_DEL ==>
            whole == if left == 1 then Some(FieldsRead(fields + [s[..j]], s[j + 1..])) else None)
      && (j < |s| && s[j] == FIELD_DEL ==>
            Resumes(whole, fields + [s[..j]], ReadFields(s[j + 1..], left - 1)))
  {
    var j := FieldEnd(s);
    FieldIsClean(s);
    if j < |s| && s[j] == FIELD_DEL && ReadFields(s[j + 1..], left - 1).Some? {
      ConcatAssociates(fields, [s[..j]], ReadFields(s[j + 1..], left - 1).value.fields);
    }
  }

  lemma OneFieldAt(whole: Option<FieldsRead>, fields: seq<string>, ptr: string, start: nat, end: nat, left: nat)
    requires IsFieldEnd(ptr, start, end)
    requires left > 0 && Midway(whole, fields, ptr, start, left)
    ensures var params := fields + [ptr[start..end]];
            if end == |ptr| || ptr[end] == RECORD_DEL then EndsWith(whole, params, ptr, end, |fields| + left)
            else Midway(whole, params, ptr, end + 1, left - 1)
  {
    var s, j := ptr[start..], end - start;
    OneField(whole, fields, s, left);
    FieldIsClean(s);
    SameText(ptr, start, end);
  }

  lemma SameText(ptr: string, start: nat, end: nat)
    requires start <= end <= |ptr|
    ensures ptr[start..][..end - start] == ptr[start..end]
    ensures end < |ptr| ==> ptr[start..][end - start] == ptr[end] && ptr[start..][end - start + 1..] == ptr[end + 1..]
  {
  }

  // What is made of the record once the loop over its fields is left at idx.
  predicate EndsWith(whole: Option<FieldsRead>, params: seq<string>, ptr: string, idx: nat, n: nat) {
    whole == if idx < |ptr| && ptr[idx] == RECORD_DEL && |params| == n
             then Some(FieldsRead(params, ptr[idx + 1..])) else None
  }

  lemma BehindFields(whole: Option<FieldsRead>, params: seq<string>, ptr: string, idx: nat, left: nat)
    requires idx <= |ptr| && (left == 0 || idx == |ptr|) && Midway(whole, params, ptr, idx, left)
    ensures EndsWith(whole, params, ptr, idx, |params| + left)
  {
    if idx < |ptr| {
      assert ptr[idx..][0] == ptr[idx] && ptr[idx..][1..] == ptr[idx + 1..];
      assert params + [] == params;
    }
  }
}
