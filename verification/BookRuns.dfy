/**
  The numbers of the phone book and the runs of edits and sessions side by side: the
  contacts of the one are the rows of the other, and a new contact's key is its number
  and the user. So the keys of the phone book are new, as the runs ask.
*/
module BookRuns {
  import opened RecordCodec
  import opened MsyncTable
  import opened ServerRows
  import opened SyncRuns
  import ContactIds
  import Atoll

  function NumberKey(n: int, user: string): Key { Key(Atoll.Decimal(n), user) }

  // The numbers of the book are those of the user's rows.
  ghost predicate SameContacts(b: ContactIds.Book, t: Table, user: string) {
    forall n: int :: NumberKey(n, user) in t.rows <==> n in b.db.contacts
  }

  // The contact of an action on the phone book that succeeds, and the table after it.
  ghost predicate SameAction(b: ContactIds.Book, action: ContactIds.Event, s: State, e: Event, user: string) {
    match action
    case AddContact(insertOk, updateOk) =>
      insertOk && updateOk && e.LocalInsert? && KeyOf(e.contact) == NumberKey(b.nextId, user)
    case EditContact(id, ok) => ok && e.LocalUpdate? && KeyOf(e.contact) == NumberKey(id, user)
    case RemoveContact(id, ok) => ok && e == LocalDelete(NumberKey(id, user))
    case RemoveAll(_) => false
    case Sync(_, downloaded, _, _, _, _) =>
      e.Session? && Allowed(s, e) &&
      forall n: int :: NumberKey(n, user) in ApplyAll(s.table, e.ops).rows <==> n in downloaded
  }

  /** An action of the phone book and the event it is for the table keep the two
      together. */
  lemma SameActionsKeepContacts(b: ContactIds.Book, action: ContactIds.Event, s: State, e: Event, user: string)
    requires ContactIds.Covered(b) && SameContacts(b, s.table, user) && Allowed(s, e)
    requires SameAction(b, action, s, e, user)
    ensures SameContacts(ContactIds.Next(b, action), Next(s, e).table, user)
  {
    var b', t' := ContactIds.Next(b, action), Next(s, e).table;
    forall n: int
      ensures NumberKey(n, user) in t'.rows <==> n in b'.db.contacts
    {
      assert NumberKey(n, user) in s.table.rows <==> n in b.db.contacts;
      match action
      case AddContact(_, _) =>
        ContactIds.AddUsesFreshNumber(b, true, true);
        KeysDiffer(n, b.nextId, user);
      case RemoveContact(id, _) => KeysDiffer(n, id, user);
      case _ =>
    }
  }

  lemma KeysDiffer(m: int, n: int, user: string)
    ensures NumberKey(m, user) == NumberKey(n, user) <==> m == n
  {
    if NumberKey(m, user) == NumberKey(n, user) {
      Atoll.DecimalIsInjective(m, n);
    }
  }

  // A session takes no number in between that it does not leave and that no contact
  // has had before.
  ghost predicate TouchesCounted(b: ContactIds.Book, ops: seq<DbOp>, user: string) {
    forall n: int :: NumberKey(n, user) in Touched(ops) ==> n in b.ever
  }

  // State j belongs to book when[j]; a contact is inserted where the book adds one.
  ghost predicate Follows(states: seq<State>, events: seq<Event>, books: seq<ContactIds.Book>,
                          actions: seq<ContactIds.Event>, when: seq<nat>, user: string) {
    && ContactIds.IsRun(books, actions) && ContactIds.Covered(books[0])
    && |when| == |states| == |events| + 1
    && (forall j :: 0 <= j < |when| ==> when[j] < |books| && SameContacts(books[when[j]], states[j].table, user))
    && (forall i, j :: 0 <= i <= j < |when| ==> when[i] <= when[j])
    && (forall j :: 0 <= j < |events| && events[j].Session? ==> TouchesCounted(books[when[j + 1]], events[j].ops, user))
    && (forall j :: 0 <= j < |events| && events[j].LocalInsert? ==>
          KeyOf(events[j].contact) == NumberKey(books[when[j]].nextId, user))
  }

  /** A number the phone book gives out makes a key that no row had before and no
      session touched. */
  lemma BookKeysAreNew(states: seq<State>, events: seq<Event>, books: seq<ContactIds.Book>,
                       actions: seq<ContactIds.Event>, when: seq<nat>, user: string, i: nat)
    requires Follows(states, events, books, actions, when, user) && i < |events| && events[i].LocalInsert?
    ensures NeverUsed(states, events, i, KeyOf(events[i].contact))
  {
    var n := books[when[i]].nextId;
    ContactIds.RunStaysCovered(books, actions, when[i], when[i]);
    ContactIds.AddUsesFreshNumber(books[when[i]], true, true);
    forall j | 0 <= j <= i
      ensures NumberKey(n, user) !in states[j].table.rows
    {
      ContactIds.RunStaysCovered(books, actions, when[j], when[i]);
    }
    forall j | 0 <= j < i && events[j].Session?
      ensures NumberKey(n, user) !in Touched(events[j].ops)
    {
      ContactIds.RunStaysCovered(books, actions, when[j + 1], when[i]);
      assert TouchesCounted(books[when[j + 1]], events[j].ops, user);
    }
  }

  /** With the phone book's numbers for keys, a run whose sessions are careful is
      harmless for a key if and only if the key is never deleted in doubt. */
  lemma BookRunsAreHarmless(states: seq<State>, events: seq<Event>, books: seq<ContactIds.Book>,
                            actions: seq<ContactIds.Event>, when: seq<nat>, user: string, k: Key, n: nat)
    requires IsRun(states, events) && n <= |events|
    requires Follows(states, events, books, actions, when, user)
    requires forall i :: 0 <= i < n && events[i].Session? ==> Careful(events[i])
    requires forall i :: 0 <= i < n && events[i].Session? && events[i].acknowledged ==>
               HarmlessAt(states[i], events[i], k)
    ensures HarmlessUpTo(states, events, k, n) <==>
            forall i :: 0 <= i < n && events[i] == LocalDelete(k) ==> !Doubtful(states, events, i, k)
  {
    forall i | 0 <= i < n && events[i].LocalInsert? && KeyOf(events[i].contact) == k
      ensures NeverUsed(states, events, i, k)
    {
      BookKeysAreNew(states, events, books, actions, when, user, i);
    }
    NewKeysMakeRunsHarmless(states, events, k, n);
  }
}
