/**
  The delimiter codec of the sync client: how a contact is turned into text for
  an upload, and how downloaded text is taken apart with Java's `String.split`.
*/
module RecordCodec {

  const FIELD_DEL: char := '\U{08}'
  const RECORD_DEL: char := '\U{7F}'

  datatype Contact = Contact(
    id: string,
    username: string,
    company: string,
    name: string,
    eMail: string,
    companyPhone: string,
    mobilePhone: string,
    address: string)

  datatype Flag = InsertFlag | UpdateFlag | DeleteFlag

  datatype Result<+T> = Ok(value: T) | Malformed

  predicate Clean(s: string) {
    FIELD_DEL !in s && RECORD_DEL !in s
  }

  predicate AllClean(fields: seq<string>) {
    forall i :: 0 <= i < |fields| ==> Clean(fields[i])
  }

  // The fields of a record in the order in which they travel.
  function Layout(flag: Flag, c: Contact): seq<string> {
    match flag
    case InsertFlag =>
      [c.id, c.username, c.company, c.name, c.eMail, c.companyPhone, c.mobilePhone, c.address]
    case UpdateFlag =>
      [c.company, c.name, c.eMail, c.companyPhone, c.mobilePhone, c.address, c.id, c.username]
    case DeleteFlag =>
      [c.id, c.username]
  }

  // --------------------------------------------------------------------------
  // Encoding, field by field as the upload loop appends them

  function Put(tmp: string, field: string): string {
    tmp + field + [FIELD_DEL]
  }

  function PutAll(tmp: string, fields: seq<string>): (s: string)
    ensures |s| >= |tmp| + |fields|
    decreases |fields|
  {
    if |fields| == 0 then tmp else PutAll(Put(tmp, fields[0]), fields[1..])
  }

  // The key goes first except in an update; the last delimiter is replaced.
  function EncodeContact(flag: Flag, c: Contact): (s: string)
    ensures |s| >= 2
  {
    var key := [c.id, c.username];
    var body := [c.company, c.name, c.eMail, c.companyPhone, c.mobilePhone, c.address];
    var t1 := if flag != UpdateFlag then PutAll("", key) else "";
    var t2 := if flag != DeleteFlag then PutAll(t1, body) else t1;
    var t3 := if flag == UpdateFlag then PutAll(t2, key) else t2;
    t3[..|t3| - 1] + [RECORD_DEL]
  }

  function Encodings(flag: Flag, cs: seq<Contact>): (es: seq<string>)
    ensures |es| == |cs| && forall i :: 0 <= i < |cs| ==> es[i] == EncodeContact(flag, cs[i])
  {
    seq(|cs|, i requires 0 <= i < |cs| => EncodeContact(flag, cs[i]))
  }

  function Flatten<T>(parts: seq<seq<T>>): seq<T> {
    if |parts| == 0 then [] else parts[0] + Flatten(parts[1..])
  }

  lemma ConcatAssociates<T>(a: seq<T>, b: seq<T>, c: seq<T>)
    ensures a + b + c == a + (b + c)
  {
  }

  lemma FrontAndLast<T>(a: seq<T>)
    requires |a| > 0
    ensures a[..|a| - 1] + [a[|a| - 1]] == a
  {
  }

  lemma FlattenSingle<T>(parts: seq<seq<T>>)
    requires |parts| == 1
    ensures Flatten(parts) == parts[0]
  {
    assert Flatten(parts[1..]) == [];
  }

  lemma FlattenLast<T>(parts: seq<seq<T>>, part: seq<T>)
    ensures Flatten(parts + [part]) == Flatten(parts) + part
  {
    FlattenAppend(parts, [part]);
    assert Flatten([part]) == part + Flatten([]);
  }

  lemma {:induction false} FlattenAppend<T>(a: seq<seq<T>>, b: seq<seq<T>>)
    ensures Flatten(a + b) == Flatten(a) + Flatten(b)
  {
    if |a| == 0 {
      assert a + b == b;
    } else {
      assert (a + b)[1..] == a[1..] + b;
      FlattenAppend(a[1..], b);
    }
  }

  lemma {:induction false} FlattenMember<T>(groups: seq<seq<T>>, x: T)
    requires x in Flatten(groups)
    ensures exists i :: 0 <= i < |groups| && x in groups[i]
  {
    if x !in groups[0] {
      FlattenMember(groups[1..], x);
      var i :| 0 <= i < |groups[1..]| && x in groups[1..][i];
      assert x in groups[i + 1];
    }
  }

  lemma {:induction false} InFlatten<T>(parts: seq<seq<T>>, i: nat, x: T)
    requires i < |parts| && x in parts[i]
    ensures x in Flatten(parts)
    decreases i
  {
    if i > 0 {
      InFlatten(parts[1..], i - 1, x);
    }
  }

  // --------------------------------------------------------------------------
  // Java's split by a one-character delimiter

  // All pieces between delimiters, the empty ones at the end included.
  function Pieces(s: string, d: char): (ps: seq<string>)
    ensures |ps| >= 1
  {
    if |s| == 0 then [""]
    else
      var rest := Pieces(s[1..], d);
      if s[0] == d then [""] + rest else [[s[0]] + rest[0]] + rest[1..]
  }

  function DropTrailingEmpty(ps: seq<string>): seq<string> {
    if |ps| > 0 && ps[|ps| - 1] == "" then DropTrailingEmpty(ps[..|ps| - 1]) else ps
  }

  // A string without the delimiter, the empty one too, is its own only part;
  // otherwise empty parts at the end are dropped.
  function Split(s: string, d: char): seq<string> {
    if d !in s then [s] else DropTrailingEmpty(Pieces(s, d))
  }

  function Join(ps: seq<string>, d: char): string
    requires |ps| >= 1
  {
    if |ps| == 1 then ps[0] else ps[0] + [d] + Join(ps[1..], d)
  }

  lemma {:induction false} PiecesOfPrefix(a: string, d: char, s: string)
    requires d !in a
    ensures Pieces(a + [d] + s, d) == [a] + Pieces(s, d)
  {
    if |a| == 0 {
      assert a + [d] + s == [d] + s;
      assert ([d] + s)[1..] == s;
    } else {
      var t := a + [d] + s;
      assert t[1..] == a[1..] + [d] + s;
      PiecesOfPrefix(a[1..], d, s);
      assert [a[0]] + a[1..] == a;
    }
  }

  lemma {:induction false} PiecesOfWhole(a: string, d: char)
    requires d !in a
    ensures Pieces(a, d) == [a]
  {
    if |a| > 0 {
      PiecesOfWhole(a[1..], d);
      assert [a[0]] + a[1..] == a;
    }
  }

  lemma {:induction false} PiecesOfJoin(ps: seq<string>, d: char)
    requires |ps| >= 1 && forall i :: 0 <= i < |ps| ==> d !in ps[i]
    ensures Pieces(Join(ps, d), d) == ps
  {
    if |ps| == 1 {
      PiecesOfWhole(ps[0], d);
      assert ps == [ps[0]];
    } else {
      PiecesOfJoin(ps[1..], d);
      PiecesOfPrefix(ps[0], d, Join(ps[1..], d));
      assert ps == [ps[0]] + ps[1..];
    }
  }

  lemma {:induction false} PiecesHaveNoDelimiter(s: string, d: char)
    ensures forall i :: 0 <= i < |Pieces(s, d)| ==> d !in Pieces(s, d)[i]
    ensures forall i, e :: 0 <= i < |Pieces(s, d)| && e in Pieces(s, d)[i] ==> e in s
  {
    if |s| > 0 {
      PiecesHaveNoDelimiter(s[1..], d);
      var rest := Pieces(s[1..], d);
      forall i, e | 0 <= i < |Pieces(s, d)| && e in Pieces(s, d)[i] ensures e in s {
        assert e == s[0] || (i < |rest| && e in rest[i]) || (i > 0 && e in rest[i - 1]);
        assert e in s[1..] ==> e in s;
      }
    }
  }

  lemma {:induction false} DropIsPrefix(ps: seq<string>)
    ensures DropTrailingEmpty(ps) <= ps
  {
    if |ps| > 0 && ps[|ps| - 1] == "" {
      DropIsPrefix(ps[..|ps| - 1]);
    }
  }

  lemma SplitPartsAreParts(s: string, d: char)
    ensures forall i :: 0 <= i < |Split(s, d)| ==> d !in Split(s, d)[i]
    ensures forall i, e :: 0 <= i < |Split(s, d)| && e in Split(s, d)[i] ==> e in s
  {
    PiecesHaveNoDelimiter(s, d);
    DropIsPrefix(Pieces(s, d));
  }

  lemma {:induction false} JoinAppend(ps: seq<string>, last: string, d: char)
    requires |ps| >= 1
    ensures Join(ps + [last], d) == Join(ps, d) + [d] + last
  {
    if |ps| == 1 {
      assert (ps + [last])[1..] == [last];
    } else {
      assert (ps + [last])[1..] == ps[1..] + [last];
      JoinAppend(ps[1..], last, d);
      assert ps[0] + [d] + (Join(ps[1..], d) + [d] + last) == Join(ps, d) + [d] + last;
    }
  }

  lemma {:induction false} JoinContains(ps: seq<string>, d: char)
    requires |ps| >= 2
    ensures d in Join(ps, d)
  {
  }

  // --------------------------------------------------------------------------
  // Decoding

  // The columns of one downloaded record. The "." keeps empty last fields.
  function Columns(record: string): seq<string> {
    Split(record + [FIELD_DEL] + ".", FIELD_DEL)
  }

  // What a download batch says: the first n columns of each of its records.
  function Decode(data: string, n: nat): Result<seq<seq<string>>> {
    DecodeRecords(Split(data, RECORD_DEL), n)
  }

  function DecodeRecords(records: seq<string>, n: nat): Result<seq<seq<string>>> {
    if |records| == 0 then Ok([])
    else if |Columns(records[0])| != n + 1 then Malformed
    else match DecodeRecords(records[1..], n)
      case Malformed => Malformed
      case Ok(rows) => Ok([Columns(records[0])[..n]] + rows)
  }

  // --------------------------------------------------------------------------
  // Round trip

  // A record as the encoder writes it, for any list of fields.
  function EncodeFields(fields: seq<string>): string
    requires |fields| >= 1
  {
    Join(fields, FIELD_DEL) + [RECORD_DEL]
  }

  function EncodeRows(rows: seq<seq<string>>): string
    requires forall i :: 0 <= i < |rows| ==> |rows[i]| >= 1
  {
    if |rows| == 0 then "" else EncodeFields(rows[0]) + EncodeRows(rows[1..])
  }

  function Layouts(flag: Flag, cs: seq<Contact>): (rows: seq<seq<string>>)
    ensures |rows| == |cs| && forall i :: 0 <= i < |cs| ==> rows[i] == Layout(flag, cs[i])
  {
    seq(|cs|, i requires 0 <= i < |cs| => Layout(flag, cs[i]))
  }

  lemma {:induction false} PutAllJoins(ps: seq<string>, fields: seq<string>)
    requires |ps| >= 1
    ensures PutAll(Join(ps, FIELD_DEL) + [FIELD_DEL], fields) == Join(ps + fields, FIELD_DEL) + [FIELD_DEL]
    decreases |fields|
  {
    if |fields| == 0 {
      assert ps + fields == ps;
    } else {
      JoinAppend(ps, fields[0], FIELD_DEL);
      PutAllJoins(ps + [fields[0]], fields[1..]);
      assert ps + [fields[0]] + fields[1..] == ps + fields;
    }
  }

  lemma {:induction false} PutAllStarts(fields: seq<string>)
    requires |fields| >= 1
    ensures PutAll("", fields) == Join(fields, FIELD_DEL) + [FIELD_DEL]
  {
    var first := [fields[0]];
    assert Put("", fields[0]) == Join(first, FIELD_DEL) + [FIELD_DEL];
    PutAllJoins(first, fields[1..]);
    assert first + fields[1..] == fields;
  }

  /** The appended text with its last delimiter replaced is the joined layout. */
  lemma EncodeContactIsLayout(flag: Flag, c: Contact)
    ensures EncodeContact(flag, c) == EncodeFields(Layout(flag, c))
  {
    var key := [c.id, c.username];
    var body := [c.company, c.name, c.eMail, c.companyPhone, c.mobilePhone, c.address];
    PutAllStarts(key);
    PutAllStarts(body);
    PutAllJoins(key, body);
    PutAllJoins(body, key);
    assert key + body == Layout(InsertFlag, c) && body + key == Layout(UpdateFlag, c);
    var text := Join(Layout(flag, c), FIELD_DEL);
    assert (text + [FIELD_DEL])[..|text + [FIELD_DEL]| - 1] == text;
  }

  lemma {:induction false} EncodingsAreRows(flag: Flag, cs: seq<Contact>)
    ensures Flatten(Encodings(flag, cs)) == EncodeRows(Layouts(flag, cs))
  {
    if |cs| > 0 {
      EncodeContactIsLayout(flag, cs[0]);
      EncodingsAreRows(flag, cs[1..]);
      assert Encodings(flag, cs)[1..] == Encodings(flag, cs[1..]);
      assert Layouts(flag, cs)[1..] == Layouts(flag, cs[1..]);
    }
  }

  lemma {:induction false} JoinIsClean(fields: seq<string>)
    requires |fields| >= 1 && AllClean(fields)
    ensures RECORD_DEL !in Join(fields, FIELD_DEL)
  {
    if |fields| > 1 {
      JoinIsClean(fields[1..]);
    }
  }

  lemma {:induction false} ColumnsOfRecord(fields: seq<string>)
    requires |fields| >= 1 && AllClean(fields)
    ensures Columns(Join(fields, FIELD_DEL)) == fields + ["."]
  {
    JoinAppend(fields, ".", FIELD_DEL);
    PiecesOfJoin(fields + ["."], FIELD_DEL);
    JoinContains(fields + ["."], FIELD_DEL);
  }

  lemma {:induction false} PiecesOfRows(rows: seq<seq<string>>)
    requires forall i :: 0 <= i < |rows| ==> |rows[i]| >= 1 && AllClean(rows[i])
    ensures Pieces(EncodeRows(rows), RECORD_DEL) ==
              seq(|rows|, i requires 0 <= i < |rows| => Join(rows[i], FIELD_DEL)) + [""]
  {
    if |rows| > 0 {
      JoinIsClean(rows[0]);
      PiecesOfRows(rows[1..]);
      PiecesOfPrefix(Join(rows[0], FIELD_DEL), RECORD_DEL, EncodeRows(rows[1..]));
    }
  }

  lemma SplitOfRows(rows: seq<seq<string>>)
    requires |rows| >= 1
    requires forall i :: 0 <= i < |rows| ==> |rows[i]| >= 2 && AllClean(rows[i])
    ensures Split(EncodeRows(rows), RECORD_DEL) ==
              seq(|rows|, i requires 0 <= i < |rows| => Join(rows[i], FIELD_DEL))
  {
    PiecesOfRows(rows);
    var records := seq(|rows|, i requires 0 <= i < |rows| => Join(rows[i], FIELD_DEL));
    assert (records + [""])[..|rows|] == records;
    JoinContains(rows[|rows| - 1], FIELD_DEL);
    assert records[|rows| - 1] != "";
    assert DropTrailingEmpty(records) == records;
    assert DropTrailingEmpty(records + [""]) == DropTrailingEmpty((records + [""])[..|rows|]);
  }

  lemma {:induction false} DecodeOfRecords(rows: seq<seq<string>>, n: nat)
    requires n >= 1
    requires forall i :: 0 <= i < |rows| ==> |rows[i]| == n && AllClean(rows[i])
    ensures DecodeRecords(seq(|rows|, i requires 0 <= i < |rows| => Join(rows[i], FIELD_DEL)), n) == Ok(rows)
  {
    var records := seq(|rows|, i requires 0 <= i < |rows| => Join(rows[i], FIELD_DEL));
    if |rows| > 0 {
      var rest := rows[1..];
      assert records[1..] == seq(|rest|, i requires 0 <= i < |rest| => Join(rest[i], FIELD_DEL));
      DecodeOfRecords(rest, n);
      ColumnsOfRecord(rows[0]);
      assert (rows[0] + ["."])[..n] == rows[0];
      assert [rows[0]] + rest == rows;
    } else {
      assert records == [];
    }
  }

  lemma {:induction false} DecodedIsClean(records: seq<string>, n: nat)
    requires forall i :: 0 <= i < |records| ==> RECORD_DEL !in records[i]
    requires DecodeRecords(records, n).Ok?
    ensures forall i :: 0 <= i < |DecodeRecords(records, n).value| ==> AllClean(DecodeRecords(records, n).value[i])
  {
    if |records| > 0 {
      DecodedIsClean(records[1..], n);
      var record := records[0] + [FIELD_DEL] + ".";
      SplitPartsAreParts(record, FIELD_DEL);
      assert RECORD_DEL !in record;
      assert AllClean(Columns(records[0])[..n]);
    }
  }

  /** Decoding gives back exactly the encoded rows, empty fields included, just
      when there is a row and no field contains a delimiter. */
  lemma {:induction false} RoundTrip(rows: seq<seq<string>>, n: nat)
    requires n >= 2
    requires forall i :: 0 <= i < |rows| ==> |rows[i]| == n
    ensures Decode(EncodeRows(rows), n) == Ok(rows) <==>
            |rows| > 0 && forall i :: 0 <= i < |rows| ==> AllClean(rows[i])
  {
    if |rows| == 0 {
      assert Split("", RECORD_DEL) == [""];
      ColumnsOfRecord([""]);
      assert Join([""], FIELD_DEL) == "";
      assert Columns("") == ["", "."];
    } else if forall i :: 0 <= i < |rows| ==> AllClean(rows[i]) {
      SplitOfRows(rows);
      DecodeOfRecords(rows, n);
    } else if Decode(EncodeRows(rows), n) == Ok(rows) {
      SplitPartsAreParts(EncodeRows(rows), RECORD_DEL);
      DecodedIsClean(Split(EncodeRows(rows), RECORD_DEL), n);
    }
  }

  /** The uploaded text of contacts, read by the download code: the eight fields
      of an INSERT (and UPDATE) record, the two of a DELETE record. */
  lemma ContactsRoundTrip(flag: Flag, cs: seq<Contact>)
    ensures Decode(Flatten(Encodings(flag, cs)), if flag == DeleteFlag then 2 else 8) == Ok(Layouts(flag, cs)) <==>
            |cs| > 0 && forall i :: 0 <= i < |cs| ==> AllClean(Layout(flag, cs[i]))
  {
    EncodingsAreRows(flag, cs);
    RoundTrip(Layouts(flag, cs), if flag == DeleteFlag then 2 else 8);
  }
}
