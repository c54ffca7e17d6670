/**
  Contact numbers of the phone book. A new contact gets the number kept in memory
  as the next one; the highest number ever handed out is kept in a one-row table
  beside the contacts. Numbers of the logged-in user only; reads and writes of the
  database may fail at every step.
*/
module ContactIds {

  // The user's contact numbers and the number stored beside them.
  datatype Store = Store(contacts: set<int>, maxid: int)

  predicate AtMost(ids: set<int>, n: int) { forall x :: x in ids ==> x <= n }

  // What `select max(id)` answers; nothing selected reads as 0.
  ghost predicate IsTop(ids: set<int>, top: int)
  {
    if ids == {} then top == 0 else top in ids && AtMost(ids, top)
  }

  lemma Member<T>(ids: set<T>) returns (x: T)
    requires |ids| > 0
    ensures x in ids
  {
    x :| x in ids;
  }

  method Pick<T>(ids: set<T>) returns (x: T)
    requires ids != {}
    ensures x in ids
  {
    x :| x in ids;
  }

  lemma {:induction false} TopExists(ids: set<int>) returns (top: int)
    ensures IsTop(ids, top)
    decreases |ids|
  {
    if |ids| > 0 {
      var x := Member(ids);
      var t := TopExists(ids - {x});
      top := if ids == {x} || t <= x then x else t;
      assert forall y :: y in ids && y != x ==> y in ids - {x};
    } else {
      top := 0;
    }
  }

  ghost function Top(ids: set<int>): (top: int)
    ensures IsTop(ids, top)
  {
    assert exists t :: IsTop(ids, t) by { var t := TopExists(ids); }
    var t :| IsTop(ids, t); t
  }

  // ---------- statements ----------

  datatype Statement =
    InsertContact(id: int) | UpdateContact(id: int) | DeleteContact(id: int) | DeleteAll | SetMaxId(n: int)

  // A statement the database accepts unless the key is taken.
  predicate Accepted(s: Store, st: Statement) { st.InsertContact? ==> st.id !in s.contacts }

  function Effect(s: Store, st: Statement): Store
  {
    match st
    case InsertContact(id) => s.(contacts := s.contacts + {id})
    case UpdateContact(_) => s
    case DeleteContact(id) => s.(contacts := s.contacts - {id})
    case DeleteAll => s.(contacts := {})
    case SetMaxId(n) => s.(maxid := n)
  }

  // ---------- the phone book as a state machine ----------

  // `ever` holds every number any contact of the user has had.
  datatype Book = Book(db: Store, nextId: int, ever: set<int>)

  // How a read of one number went: 0, or the negative code of the failure.
  type Code = c: int | c <= 0

  datatype Event =
    | AddContact(insertOk: bool, updateOk: bool)
    | EditContact(id: int, ok: bool)
    | RemoveContact(id: int, ok: bool)
    | RemoveAll(ok: bool)
    | Sync(finished: bool, downloaded: set<int>, subMax: Code, firstRead: Code, resetOk: bool, lastRead: Code)

  ghost function Reset(db: Store, subMax: Code, firstRead: Code, resetOk: bool): Store
  {
    var sub := if subMax < 0 then subMax else Top(db.contacts);
    var nid := if firstRead < 0 then firstRead else db.maxid + 1;
    if sub >= nid && resetOk then db.(maxid := sub + 1) else db
  }

  // Both steps of adding a contact; the second one decides what is reported.
  function Added(b: Book, insertOk: bool, updateOk: bool): Book
  {
    var db := if insertOk && b.nextId !in b.db.contacts then Effect(b.db, InsertContact(b.nextId)) else b.db;
    if !updateOk then b
    else Book(Effect(db, SetMaxId(b.nextId)), b.nextId + 1, b.ever + db.contacts)
  }

  ghost function Next(b: Book, e: Event): Book
  {
    match e
    case AddContact(i, u) => Added(b, i, u)
    case EditContact(_, _) => b
    case RemoveContact(id, ok) => if ok then b.(db := Effect(b.db, DeleteContact(id))) else b
    case RemoveAll(ok) => if ok then b.(db := Effect(b.db, DeleteAll)) else b
    case Sync(finished, down, subMax, firstRead, resetOk, lastRead) =>
      var db := Store(down, b.db.maxid);
      if !finished then Book(db, b.nextId, b.ever + down)
      else
        var after := Reset(db, subMax, firstRead, resetOk);
        Book(after, if lastRead < 0 then lastRead else after.maxid + 1, b.ever + down)
  }

  // Every number there is or was is covered by the stored one, and the next
  // number is the one after it.
  predicate Covered(b: Book)
  {
    && 0 <= b.db.maxid
    && b.db.contacts <= b.ever
    && AtMost(b.ever, b.db.maxid)
    && b.nextId == b.db.maxid + 1
  }

  /** A synchronisation keeps the numbers covered, without ever lowering the
      stored one, exactly when: it brought in nothing above the stored number; or
      it finished, the stored number was read back, the highest number was read
      and the stored one raised. When the stored number cannot be read before the
      comparison, the raise may lower it. */
  ghost predicate SafeSync(b: Book, e: Event)
    requires e.Sync?
  {
    if !e.finished then AtMost(e.downloaded, b.db.maxid)
    else
      && e.lastRead == 0
      && (if e.firstRead == 0 then AtMost(e.downloaded, b.db.maxid) || (e.subMax == 0 && e.resetOk)
          else if !e.resetOk then AtMost(e.downloaded, b.db.maxid)
          else if e.subMax == 0 then
            (if Top(e.downloaded) >= e.firstRead then Top(e.downloaded) + 1 >= b.db.maxid
             else AtMost(e.downloaded, b.db.maxid))
          else if e.subMax >= e.firstRead then e.subMax + 1 >= b.db.maxid && AtMost(e.downloaded, e.subMax + 1)
          else AtMost(e.downloaded, b.db.maxid))
  }

  lemma SyncKeepsExactly(b: Book, e: Event)
    requires Covered(b) && e.Sync?
    ensures SafeSync(b, e) <==> Covered(Next(b, e)) && Next(b, e).db.maxid >= b.db.maxid
  {
    var b' := Next(b, e);
    var top := Top(e.downloaded);
    assert b'.ever == b.ever + e.downloaded;
    assert AtMost(e.downloaded, b'.db.maxid) <==> top <= b'.db.maxid || e.downloaded == {};
    if AtMost(b.ever, b'.db.maxid) && AtMost(e.downloaded, b'.db.maxid) {
      assert AtMost(b'.ever, b'.db.maxid);
    }
    if AtMost(b'.ever, b'.db.maxid) {
      assert AtMost(e.downloaded, b'.db.maxid);
    }
  }

  /** Adding a contact uses a number that no contact of the user ever had, so the
      key is never the reason for a failure. The contact is stored exactly when
      both statements succeed. Success is reported and the number used up exactly
      when the second one does, whatever became of the first; when the second one
      fails, the insert is undone with it. */
  lemma AddUsesFreshNumber(b: Book, insertOk: bool, updateOk: bool)
    requires Covered(b)
    ensures b.nextId !in b.ever
    ensures Covered(Added(b, insertOk, updateOk))
    ensures b.nextId in Added(b, insertOk, updateOk).db.contacts <==> insertOk && updateOk
    ensures Added(b, insertOk, updateOk).nextId == (if updateOk then b.nextId + 1 else b.nextId)
    ensures !updateOk ==> Added(b, insertOk, updateOk) == b
    ensures Added(b, insertOk, updateOk).db.maxid >= b.db.maxid
  {
    assert AtMost(b.ever, b.db.maxid);
    assert b.nextId !in b.ever;
  }

  ghost predicate Safe(b: Book, e: Event) { e.Sync? ==> SafeSync(b, e) }

  lemma SafeStepKeeps(b: Book, e: Event)
    requires Covered(b) && Safe(b, e)
    ensures Covered(Next(b, e)) && Next(b, e).db.maxid >= b.db.maxid
    ensures b.ever <= Next(b, e).ever
  {
    if e.Sync? {
      SyncKeepsExactly(b, e);
    } else if e.AddContact? {
      AddUsesFreshNumber(b, e.insertOk, e.updateOk);
    }
  }

  ghost predicate IsRun(books: seq<Book>, events: seq<Event>)
  {
    && |books| == |events| + 1
    && forall i :: 0 <= i < |events| ==> Safe(books[i], events[i]) && books[i + 1] == Next(books[i], events[i])
  }

  /** Over every run of adds, edits, removals and safe synchronisations, failing
      or not: every number is covered at every point and the stored number only
      grows. */
  lemma {:induction false} RunStaysCovered(books: seq<Book>, events: seq<Event>, i: nat, j: nat)
    requires IsRun(books, events) && Covered(books[0]) && i <= j < |books|
    ensures Covered(books[i]) && Covered(books[j])
    ensures books[i].db.maxid <= books[j].db.maxid && books[i].nextId <= books[j].nextId
    ensures books[i].ever <= books[j].ever
    decreases j
  {
    if j > 0 {
      RunStaysCovered(books, events, if i < j then i else j - 1, j - 1);
      SafeStepKeeps(books[j - 1], events[j - 1]);
    }
  }

  /** No number is used twice: a contact added at any point of a run gets a number
      that differs from every number any contact has had before, removed ones
      included, and from the number of every contact added earlier. */
  lemma NumbersAreNeverReused(books: seq<Book>, events: seq<Event>, i: nat, j: nat)
    requires IsRun(books, events) && Covered(books[0]) && i < j < |events|
    requires events[i].AddContact? && events[i].insertOk && events[i].updateOk && events[j].AddContact?
    ensures books[i].nextId in books[j].ever
    ensures books[j].nextId !in books[j].ever && books[j].nextId > books[i].nextId
  {
    RunStaysCovered(books, events, i, i + 1);
    RunStaysCovered(books, events, i + 1, j);
    AddUsesFreshNumber(books[i], true, true);
    AddUsesFreshNumber(books[j], events[j].insertOk, events[j].updateOk);
    assert books[i + 1] == Next(books[i], events[i]);
  }

  /** When the stored number cannot be read before the comparison, the reset
      writes one above the highest contact number present, whatever was handed
      out before: a removed contact's number comes back. */
  lemma UnreadNumberComesBack(b: Book, down: set<int>, code: Code)
    requires Covered(b) && code < 0 && Top(down) >= 0 && Top(down) + 1 < b.db.maxid
    ensures var e := Sync(true, down, 0, code, true, 0);
            && !Safe(b, e)
            && Next(b, e).nextId == Top(down) + 2 <= b.db.maxid
            && (Top(down) + 2 in b.ever ==> Next(b, e).nextId in Next(b, e).ever)
  {
    var e := Sync(true, down, 0, code, true, 0);
    SyncKeepsExactly(b, e);
    assert Reset(Store(down, b.db.maxid), 0, code, true) == Store(down, Top(down) + 1);
  }

  // ---------- the program ----------

  class PhoneBook {
    var committed: Store
    var working: Store
    var nextId: int
    ghost var ever: set<int>

    // Between two user actions nothing is uncommitted.
    ghost predicate Settled()
      reads this
    {
      working == committed
    }

    ghost function Value(): Book
      reads this
    {
      Book(committed, nextId, ever)
    }

    method CommitLocalDB(isCommit: bool)
      modifies this`committed, this`working
      ensures committed == working == if isCommit then old(working) else old(committed)
    {
      if isCommit {
        committed := working;
      } else {
        working := committed;
      }
    }

    /** One statement; with beCommit the transaction ends here either way. */
    method Query2LocalDB(st: Statement, ok: bool, beCommit: bool) returns (ret: int)
      modifies this`committed, this`working
      ensures ret >= 0 <==> ok && Accepted(old(working), st)
      ensures ret >= 0 ==> working == Effect(old(working), st)
      ensures ret >= 0 ==> committed == if beCommit then working else old(committed)
      ensures ret < 0 ==> committed == old(committed) && working == if beCommit then old(committed) else old(working)
    {
      if !ok || (st.InsertContact? && st.id in working.contacts) {
        if beCommit {
          CommitLocalDB(false);
        }
        return -1;
      }
      working := Effect(working, st);
      if beCommit {
        CommitLocalDB(true);
      }
      ret := 1;
    }

    method GetSubMaxID(failure: Code) returns (id: int)
      modifies this`committed
      ensures id == if failure < 0 then failure else Top(working.contacts)
      ensures committed == if failure < 0 then old(committed) else working
    {
      if failure < 0 {
        return failure;
      }
      id := 0;
      var rest, first := working.contacts, true;
      ghost var seen := {};
      while rest != {}
        invariant seen + rest == working.contacts && seen !! rest
        invariant IsTop(seen, id) && (first <==> seen == {})
        decreases rest
      {
        var x := Pick(rest);
        if first || x > id {
          id := x;
        }
        first := false;
        seen, rest := seen + {x}, rest - {x};
      }
      assert seen == working.contacts;
      committed := working;
    }

    method GetNextID(failure: Code) returns (id: int)
      modifies this`committed
      ensures id == if failure < 0 then failure else working.maxid + 1
      ensures committed == if failure < 0 then old(committed) else working
    {
      if failure < 0 {
        return failure;
      }
      committed := working;
      id := working.maxid + 1;
    }

    /** Raise the stored number when the contacts have overtaken it. */
    method ResetMaxID(subMax: Code, firstRead: Code, resetOk: bool) returns (nid: int)
      requires Settled()
      modifies this`committed, this`working
      ensures Settled() && committed == old(Reset(committed, subMax, firstRead, resetOk))
    {
      var submaxid := GetSubMaxID(subMax);
      nid := GetNextID(firstRead);
      if submaxid >= nid {
        nid := submaxid + 1;
        submaxid := Query2LocalDB(SetMaxId(nid), resetOk, true);
        nid := nid + 1;
      }
    }

    /** Save a new contact under mID, or an existing one. A failed insert is
        rolled back and then forgotten: the answer is that of the second
        statement. */
    method SaveRecord(isNew: bool, mID: int, firstOk: bool, secondOk: bool) returns (ret: int)
      requires Settled()
      modifies this`committed, this`working
      ensures Settled() && (ret >= 0 <==> if isNew then secondOk else firstOk)
      ensures isNew && secondOk ==>
                committed == old(Effect(if firstOk && mID !in committed.contacts
                                        then Effect(committed, InsertContact(mID))
                                        else committed, SetMaxId(mID)))
      ensures !(isNew && secondOk) ==> committed == old(committed)
    {
      if isNew {
        ret := Query2LocalDB(InsertContact(mID), firstOk, false);
        if ret < 0 {
          CommitLocalDB(false);
        }
        ret := Query2LocalDB(SetMaxId(mID), secondOk, true);
      } else {
        ret := Query2LocalDB(UpdateContact(mID), firstOk, true);
      }
    }

    /** The OK button of the edit screen. */
    method OkClicked(isNew: bool, id: int, firstOk: bool, secondOk: bool)
      requires Settled()
      modifies this
      ensures Settled()
      ensures Value() == old(Next(Value(), if isNew then AddContact(firstOk, secondOk) else EditContact(id, firstOk)))
    {
      var mID := if isNew then nextId else id;
      var ret := SaveRecord(isNew, mID, firstOk, secondOk);
      if ret < 0 {
        return;
      }
      if isNew {
        ever := ever + if firstOk && mID !in old(committed).contacts then old(committed).contacts + {mID}
                       else old(committed).contacts;
        nextId := nextId + 1;
      }
    }

    /** Remove one contact, or all of them when id is negative. */
    method DeleteRecord(id: int, ok: bool) returns (ret: int)
      requires Settled()
      modifies this
      ensures Settled()
      ensures Value() == old(Next(Value(), if id < 0 then RemoveAll(ok) else RemoveContact(id, ok)))
    {
      ret := Query2LocalDB(if id < 0 then DeleteAll else DeleteContact(id), ok, true);
    }

    /** A synchronisation: the session leaves the downloaded contacts, and when it
        finished the next number is established again. */
    method DoSync(finished: bool, downloaded: set<int>, subMax: Code, firstRead: Code, resetOk: bool, lastRead: Code)
      returns (ret: int)
      requires Settled()
      modifies this
      ensures Settled()
      ensures Value() == old(Next(Value(), Sync(finished, downloaded, subMax, firstRead, resetOk, lastRead)))
    {
      committed, working := committed.(contacts := downloaded), committed.(contacts := downloaded);
      ever := ever + downloaded;
      ret := -1;
      if finished {
        ret := ResetMaxID(subMax, firstRead, resetOk);
        nextId := GetNextID(lastRead);
      }
    }
  }
}
