/**
  The server's rows, as the client's uploads and the records the server sends
  make them, and the local rows, as the records the client applied make them;
  both looked at one key at a time.
*/
module ServerRows {
  import opened RecordCodec
  import opened MsyncTable

  datatype Option<T> = None | Some(value: T)

  type Rows = map<Key, Contact>

  function At(rows: Rows, k: Key): Option<Contact> { if k in rows then Some(rows[k]) else None }

  function RowAt(t: Table, k: Key): Option<Contact> { if k in t.rows then Some(t.rows[k].contact) else None }

  // --------------------------------------------------------------------------
  // What the client tells

  function Tell(remote: Rows, u: Upload): Rows {
    if u.flag == DeleteFlag then remote - {KeyOf(u.contact)} else remote[KeyOf(u.contact) := u.contact]
  }

  function TellAll(remote: Rows, us: seq<Upload>): Rows
    decreases |us|
  {
    if |us| == 0 then remote else TellAll(Tell(remote, us[0]), us[1..])
  }

  lemma {:induction false} TellAllAppend(remote: Rows, a: seq<Upload>, b: seq<Upload>)
    ensures TellAll(remote, a + b) == TellAll(TellAll(remote, a), b)
    decreases |a|
  {
    if |a| == 0 {
      assert a + b == b;
    } else {
      assert (a + b)[1..] == a[1..] + b;
      TellAllAppend(Tell(remote, a[0]), a[1..], b);
    }
  }

  lemma {:induction false} TellingElsewhere(remote: Rows, us: seq<Upload>, k: Key)
    requires forall u :: u in us ==> KeyOf(u.contact) != k
    ensures At(TellAll(remote, us), k) == At(remote, k)
    decreases |us|
  {
    if |us| > 0 {
      assert us[0] in us;
      TellingElsewhere(Tell(remote, us[0]), us[1..], k);
    }
  }

  // Uploads that name k all say the same of it.
  lemma {:induction false} TellingHere(remote: Rows, us: seq<Upload>, k: Key, word: Option<Contact>)
    requires exists u :: u in us && KeyOf(u.contact) == k
    requires forall u :: u in us && KeyOf(u.contact) == k ==>
               word == if u.flag == DeleteFlag then None else Some(u.contact)
    ensures At(TellAll(remote, us), k) == word
    decreases |us|
  {
    var next := Tell(remote, us[0]);
    assert us == [us[0]] + us[1..];
    if u :| u in us[1..] && KeyOf(u.contact) == k {
      TellingHere(next, us[1..], k, word);
    } else {
      TellingElsewhere(next, us[1..], k);
      assert us[0] in us;
    }
  }

  // What the pending list says of a key.
  function Pending(t: Table, k: Key, was: Option<Contact>): Option<Contact> {
    if k in t.tombs then None
    else if k in t.rows && t.rows[k].mark != Synced then Some(t.rows[k].contact)
    else was
  }

  lemma SelectionTells(t: Table, flag: Flag, cs: seq<Contact>, remote: Rows, k: Key)
    requires WellKeyed(t) && IsSelection(t, flag, cs)
    ensures At(TellAll(remote, Uploads(flag, cs)), k) ==
              if flag == DeleteFlag && k in t.tombs then None
              else if flag == InsertFlag && k in t.rows && t.rows[k].mark == Used then Some(t.rows[k].contact)
              else if flag == UpdateFlag && k in t.rows && t.rows[k].mark == Update then Some(t.rows[k].contact)
              else At(remote, k)
  {
    var us := Uploads(flag, cs);
    forall u | u in us
      ensures u.flag == flag && Selects(t, flag, u.contact)
    {
      var i :| 0 <= i < |us| && us[i] == u;
      assert cs[i] in cs;
    }
    var c := if flag == DeleteFlag then Tombstone(k) else if k in t.rows then t.rows[k].contact else Tombstone(k);
    if Selects(t, flag, c) && KeyOf(c) == k {
      var i :| 0 <= i < |cs| && cs[i] == c;
      assert us[i] == Upload(flag, c) && us[i] in us;
      TellingHere(remote, us, k, if flag == DeleteFlag then None else Some(c));
    } else {
      TellingElsewhere(remote, us, k);
    }
  }

  /** Told all pending records, the server holds of every key what the marks say. */
  lemma UploadsTell(t: Table, us: seq<Upload>, remote: Rows, k: Key)
    requires WellKeyed(t) && IsPendingList(t, us)
    ensures At(TellAll(remote, us), k) == Pending(t, k, At(remote, k))
  {
    var ins, upd, del :|
      && IsSelection(t, InsertFlag, ins) && IsSelection(t, UpdateFlag, upd) && IsSelection(t, DeleteFlag, del)
      && us == Uploads(InsertFlag, ins) + Uploads(UpdateFlag, upd) + Uploads(DeleteFlag, del);
    var r1 := TellAll(remote, Uploads(InsertFlag, ins));
    var r2 := TellAll(r1, Uploads(UpdateFlag, upd));
    TellAllAppend(remote, Uploads(InsertFlag, ins) + Uploads(UpdateFlag, upd), Uploads(DeleteFlag, del));
    TellAllAppend(remote, Uploads(InsertFlag, ins), Uploads(UpdateFlag, upd));
    SelectionTells(t, InsertFlag, ins, remote, k);
    SelectionTells(t, UpdateFlag, upd, r1, k);
    SelectionTells(t, DeleteFlag, del, r2, k);
  }

  lemma PendingIsUploaded(t: Table, us: seq<Upload>, k: Key)
    requires WellKeyed(t) && IsPendingList(t, us)
    ensures k in t.rows && t.rows[k].mark == Update ==> Upload(UpdateFlag, t.rows[k].contact) in us
    ensures k in t.rows && t.rows[k].mark == Used <==> exists c :: KeyOf(c) == k && Upload(InsertFlag, c) in us
    ensures k in t.rows && t.rows[k].mark == Used ==> Upload(InsertFlag, t.rows[k].contact) in us
  {
    var ins, upd, del :|
      && IsSelection(t, InsertFlag, ins) && IsSelection(t, UpdateFlag, upd) && IsSelection(t, DeleteFlag, del)
      && us == Uploads(InsertFlag, ins) + Uploads(UpdateFlag, upd) + Uploads(DeleteFlag, del);
    MemberOfUploads(InsertFlag, ins);
    MemberOfUploads(UpdateFlag, upd);
    MemberOfUploads(DeleteFlag, del);
    if k in t.rows {
      var c := t.rows[k].contact;
      assert Selects(t, InsertFlag, c) <==> c in ins;
      assert Selects(t, UpdateFlag, c) <==> c in upd;
    }
    if c :| KeyOf(c) == k && Upload(InsertFlag, c) in us {
      assert Selects(t, InsertFlag, c) <==> c in ins;
    }
  }

  lemma MemberOfUploads(flag: Flag, cs: seq<Contact>)
    ensures forall u: Upload :: u in Uploads(flag, cs) <==> u.flag == flag && u.contact in cs
  {
    var us := Uploads(flag, cs);
    forall u: Upload | u.flag == flag && u.contact in cs
      ensures u in us
    {
      var i :| 0 <= i < |cs| && cs[i] == u.contact;
      assert us[i] == u;
    }
  }

  // --------------------------------------------------------------------------
  // What the server sends, and what the client makes of it

  // A row the server has, or the key of one it has deleted.
  datatype Sent = Put(contact: Contact) | Drop(key: Key)

  function About(r: Sent): Key { if r.Put? then KeyOf(r.contact) else r.key }

  function Word(r: Sent): Option<Contact> { if r.Put? then Some(r.contact) else None }

  // What records say of a key of which `was` was so before.
  function Said(recs: seq<Sent>, k: Key, was: Option<Contact>): Option<Contact>
    decreases |recs|
  {
    if |recs| == 0 then was else Said(recs[1..], k, if About(recs[0]) == k then Word(recs[0]) else was)
  }

  function Serve(rows: Rows, recs: seq<Sent>): Rows
    decreases |recs|
  {
    if |recs| == 0 then rows
    else Serve(if recs[0].Put? then rows[About(recs[0]) := recs[0].contact] else rows - {recs[0].key}, recs[1..])
  }

  lemma {:induction false} ServeAt(rows: Rows, recs: seq<Sent>, k: Key)
    ensures At(Serve(rows, recs), k) == Said(recs, k, At(rows, k))
    decreases |recs|
  {
    if |recs| > 0 {
      ServeAt(if recs[0].Put? then rows[About(recs[0]) := recs[0].contact] else rows - {recs[0].key}, recs[1..], k);
    }
  }

  lemma {:induction false} SaidAppend(a: seq<Sent>, b: seq<Sent>, k: Key, was: Option<Contact>)
    ensures Said(a + b, k, was) == Said(b, k, Said(a, k, was))
    decreases |a|
  {
    if |a| == 0 {
      assert a + b == b;
    } else {
      assert (a + b)[1..] == a[1..] + b;
      SaidAppend(a[1..], b, k, if About(a[0]) == k then Word(a[0]) else was);
    }
  }

  // The records a list of operations comes from.
  function Heard(ops: seq<DbOp>): seq<Sent>
    decreases |ops|
  {
    if |ops| == 0 then []
    else (match ops[0]
          case Upsert(c, _) => [Put(c)]
          case Remove(k) => [Drop(k)]
          case FlushMarks => []) + Heard(ops[1..])
  }

  /** What the operations leave in a row is what their records say of it. */
  lemma {:induction false} AppliedIsSaid(t: Table, ops: seq<DbOp>, k: Key)
    requires CanApplyAll(t, ops)
    ensures RowAt(ApplyAll(t, ops), k) == Said(Heard(ops), k, RowAt(t, k))
    decreases |ops|
  {
    if |ops| > 0 {
      AppliedIsSaid(Apply(t, ops[0]), ops[1..], k);
      match ops[0]
      case Upsert(c, _) => assert ([Put(c)] + Heard(ops[1..]))[1..] == Heard(ops[1..]);
      case Remove(key) => assert ([Drop(key)] + Heard(ops[1..]))[1..] == Heard(ops[1..]);
      case FlushMarks => assert [] + Heard(ops[1..]) == Heard(ops[1..]);
    }
  }

  // --------------------------------------------------------------------------
  // Records that were sent and not applied

  // The records that were applied, of those sent.
  function Applied(sent: seq<Sent>, took: seq<bool>): seq<Sent>
    requires |sent| == |took|
    decreases |sent|
  {
    if |sent| == 0 then [] else (if took[0] then [sent[0]] else []) + Applied(sent[1..], took[1..])
  }

  // Record i is the last one about its row.
  predicate LastWord(sent: seq<Sent>, i: nat) {
    i < |sent| && forall j :: i < j < |sent| ==> About(sent[j]) != About(sent[i])
  }

  lemma {:induction false} SaidNothing(recs: seq<Sent>, k: Key, was: Option<Contact>)
    requires forall r :: r in recs ==> About(r) != k
    ensures Said(recs, k, was) == was
    decreases |recs|
  {
    if |recs| > 0 {
      assert recs[0] in recs;
      SaidNothing(recs[1..], k, was);
    }
  }

  lemma {:induction false} SaidLast(recs: seq<Sent>, i: nat, was: Option<Contact>)
    requires LastWord(recs, i)
    ensures Said(recs, About(recs[i]), was) == Word(recs[i])
    decreases i
  {
    var k := About(recs[i]);
    if i > 0 {
      SaidLast(recs[1..], i - 1, if About(recs[0]) == k then Word(recs[0]) else was);
    } else {
      forall r | r in recs[1..]
        ensures About(r) != k
      {
        var j :| 0 <= j < |recs[1..]| && recs[1..][j] == r;
        assert recs[j + 1] == r;
      }
      SaidNothing(recs[1..], k, Word(recs[0]));
    }
  }

  lemma {:induction false} TakenIsSent(sent: seq<Sent>, took: seq<bool>)
    requires |sent| == |took|
    ensures forall r :: r in Applied(sent, took) ==> r in sent
    decreases |sent|
  {
    if |sent| > 0 {
      TakenIsSent(sent[1..], took[1..]);
    }
  }

  lemma {:induction false} TakenLast(sent: seq<Sent>, took: seq<bool>, i: nat, was: Option<Contact>)
    requires |sent| == |took| && LastWord(sent, i) && took[i]
    ensures Said(Applied(sent, took), About(sent[i]), was) == Word(sent[i])
    decreases i
  {
    var k := About(sent[i]);
    var rest := Applied(sent[1..], took[1..]);
    if i > 0 {
      TakenLast(sent[1..], took[1..], i - 1, if took[0] && About(sent[0]) == k then Word(sent[0]) else was);
    } else {
      TakenIsSent(sent[1..], took[1..]);
      forall r | r in rest
        ensures About(r) != k
      {
        var j :| 0 <= j < |sent[1..]| && sent[1..][j] == r;
        assert sent[j + 1] == r;
      }
      SaidNothing(rest, k, Word(sent[0]));
    }
    if took[0] {
      assert ([sent[0]] + rest)[1..] == rest;
    } else {
      assert [] + rest == rest;
    }
  }

  // Index of the last record about a key, -1 when there is none.
  function LastAbout(sent: seq<Sent>, k: Key): (i: int)
    ensures -1 <= i < |sent|
    ensures i >= 0 ==> About(sent[i]) == k && LastWord(sent, i)
    ensures i < 0 ==> forall r :: r in sent ==> About(r) != k
  {
    if |sent| == 0 then -1
    else
      var n := |sent| - 1;
      if About(sent[n]) == k then n
      else
        assert sent == sent[..n] + [sent[n]];
        LastAbout(sent[..n], k)
  }

  /** The row of a key is as the server said exactly when the last record about
      it was applied, or the row already was what that record says. */
  lemma RightExactly(t: Table, sent: seq<Sent>, took: seq<bool>, ops: seq<DbOp>, k: Key)
    requires CanApplyAll(t, ops) && |sent| == |took| && Heard(ops) == Applied(sent, took)
    ensures RowAt(ApplyAll(t, ops), k) == Said(sent, k, RowAt(t, k)) <==>
            var i := LastAbout(sent, k);
            i < 0 || took[i] || RowAt(ApplyAll(t, ops), k) == Word(sent[i])
  {
    var was := RowAt(t, k);
    var i := LastAbout(sent, k);
    AppliedIsSaid(t, ops, k);
    if i < 0 {
      TakenIsSent(sent, took);
      SaidNothing(sent, k, was);
      SaidNothing(Applied(sent, took), k, was);
    } else {
      SaidLast(sent, i, was);
      if took[i] {
        TakenLast(sent, took, i, was);
      }
    }
  }
}
