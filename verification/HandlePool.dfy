/**
  Connection and statement handles of the JNI layer: a table of connections,
  each with a fixed pool of statement slots that own objects of the iSQL client
  library. The library model keeps exactly the objects that were allocated and
  not yet freed, and its operations demand that what they are given is live.
*/
module HandlePool {

  const EDB_MAX_CONNECTION: int := 20
  const EDB_MAX_STMT_HANDLE_CNT: int := 100

  const EDB_ERROR_CONNECT := -100000
  const EDB_ERROR_OVERFLOW_CONNECT := -100001
  const EDB_ERROR_OVERFLOW_QUERY := -100002
  const EDB_ERROR_INVALID_CONNID := -100003
  const EDB_ERROR_MISS_HANDLE := -100004

  // bUsed of a connection
  const FREE := 0
  const RESERVED := -1
  const CONNECTED := 1

  datatype Pointer = Null | To(id: nat)

  datatype Query = Query(used: bool, stmt: Pointer, bindParam: bool, bindRes: bool, res: Pointer)

  const EMPTY: Query := Query(false, Null, false, false, Null)

  // What the library answers to one query.
  datatype Answers = Answers(connects: bool, prepares: bool, describes: int, selects: bool, allocates: bool, errno: int)

  /** The iSQL client library: live statements, each owning at most one result.
      A result handed out for a statement is flagged as belonging to it, so
      freeing it by itself does nothing; closing the statement frees both. */
  class IsqlLibrary {
    var live: map<nat, Pointer>
    var made: nat

    ghost predicate Valid()
      reads this
    {
      && (forall id :: id in live ==> id < made && (live[id].To? ==> live[id].id < made && live[id].id !in live))
      && (forall a, b :: a in live && b in live && a != b && live[a].To? ==> live[a] != live[b])
    }

    constructor ()
      ensures Valid() && live == map[]
    {
      live, made := map[], 0;
    }

    method Prepare(succeeds: bool) returns (stmt: Pointer)
      requires Valid()
      modifies this
      ensures Valid() && (stmt.To? <==> succeeds)
      ensures succeeds ==> stmt.id !in old(live) && live == old(live)[stmt.id := Null]
      ensures !succeeds ==> live == old(live)
    {
      stmt := Null;
      if succeeds {
        stmt, live, made := To(made), live[made := Null], made + 1;
      }
    }

    method PrepareResult(stmt: nat, allocates: bool) returns (res: Pointer)
      requires Valid() && stmt in live
      modifies this
      ensures Valid() && live == old(live)[stmt := res]
      ensures res == if old(live)[stmt].To? || !allocates then old(live)[stmt] else To(old(made))
    {
      res := live[stmt];
      if res == Null && allocates {
        res := To(made);
        live, made := live[stmt := res], made + 1;
      }
      assert live == old(live)[stmt := res];
    }

    method FreeResult(ghost stmt: nat, res: Pointer)
      requires Valid() && stmt in live && live[stmt] == res && res.To?
    {
    }

    method StmtClose(stmt: nat)
      requires Valid() && stmt in live
      modifies this
      ensures Valid() && live == old(live) - {stmt}
    {
      live := live - {stmt};
    }
  }

  // --------------------------------------------------------------------------
  // Who owns what, on the values of the tables. Slot p of the pools belongs to
  // connection p / EDB_MAX_STMT_HANDLE_CNT.

  const SLOTS := EDB_MAX_CONNECTION * EDB_MAX_STMT_HANDLE_CNT

  function Slot(connid: int, hstmt: int): int {
    connid * EDB_MAX_STMT_HANDLE_CNT + hstmt
  }

  function Owner(p: int): int {
    p / EDB_MAX_STMT_HANDLE_CNT
  }

  predicate SlotOwns(state: seq<int>, slots: seq<Query>, live: map<nat, Pointer>, place: map<nat, int>, p: int)
    requires |state| == EDB_MAX_CONNECTION && |slots| == SLOTS && 0 <= p < SLOTS
  {
    var q := slots[p];
    && (!q.used ==> q == EMPTY)
    && (q.used ==> state[Owner(p)] == CONNECTED)
    && (q.stmt == Null ==> q.res == Null)
    && (q.stmt.To? ==>
          && q.stmt.id in live && q.stmt.id in place && place[q.stmt.id] == p
          && (q.res.To? ==> live[q.stmt.id] == q.res))
  }

  // Every used slot owns its statement, and every live statement has its slot.
  predicate Owned(state: seq<int>, slots: seq<Query>, live: map<nat, Pointer>, place: map<nat, int>) {
    && |state| == EDB_MAX_CONNECTION && |slots| == SLOTS
    && (forall c :: 0 <= c < EDB_MAX_CONNECTION ==> state[c] in {FREE, RESERVED, CONNECTED})
    && (forall p :: 0 <= p < SLOTS ==> SlotOwns(state, slots, live, place, p))
    && place.Keys == live.Keys
    && (forall id :: id in place ==> 0 <= place[id] < SLOTS && slots[place[id]].stmt == To(id))
  }

  // Between calls a slot in use always holds a statement.
  predicate Complete(slots: seq<Query>) {
    forall p :: 0 <= p < |slots| && slots[p].used ==> slots[p].stmt.To?
  }

  predicate CompleteBut(slots: seq<Query>, except: int) {
    forall p :: 0 <= p < |slots| && slots[p].used && p != except ==> slots[p].stmt.To?
  }

  function Without<T>(m: map<nat, T>, p: Pointer): map<nat, T> {
    if p.To? then m - {p.id} else m
  }

  lemma ClearKeepsOwned(state: seq<int>, slots: seq<Query>, live: map<nat, Pointer>, place: map<nat, int>, p: int)
    requires Owned(state, slots, live, place) && 0 <= p < SLOTS
    ensures Owned(state, slots[p := EMPTY], Without(live, slots[p].stmt), Without(place, slots[p].stmt))
  {
    assert SlotOwns(state, slots, live, place, p);
    var slots', live', place' := slots[p := EMPTY], Without(live, slots[p].stmt), Without(place, slots[p].stmt);
    forall p' | 0 <= p' < SLOTS ensures SlotOwns(state, slots', live', place', p') {
      assert SlotOwns(state, slots, live, place, p');
    }
  }

  lemma StateKeepsOwned(state: seq<int>, slots: seq<Query>, live: map<nat, Pointer>, place: map<nat, int>, c: int,
                        to: int)
    requires Owned(state, slots, live, place) && 0 <= c < EDB_MAX_CONNECTION && to in {FREE, RESERVED, CONNECTED}
    requires to == CONNECTED || forall p :: 0 <= p < SLOTS && Owner(p) == c ==> !slots[p].used
    ensures Owned(state[c := to], slots, live, place)
  {
    var state' := state[c := to];
    forall p | 0 <= p < SLOTS ensures SlotOwns(state', slots, live, place, p) {
      assert SlotOwns(state, slots, live, place, p);
    }
  }

  lemma ClosedIsEmpty(state: seq<int>, slots: seq<Query>, live: map<nat, Pointer>, place: map<nat, int>, c: int)
    requires Owned(state, slots, live, place) && 0 <= c < EDB_MAX_CONNECTION && state[c] != CONNECTED
    ensures forall p :: 0 <= p < SLOTS && Owner(p) == c ==> slots[p] == EMPTY
  {
    forall p | 0 <= p < SLOTS && Owner(p) == c ensures slots[p] == EMPTY {
      assert SlotOwns(state, slots, live, place, p);
    }
  }

  // A slot takes a new statement.
  lemma FillKeepsOwned(state: seq<int>, slots: seq<Query>, live: map<nat, Pointer>, place: map<nat, int>,
                       p: int, q: Query, live': map<nat, Pointer>)
    requires Owned(state, slots, live, place) && 0 <= p < SLOTS
    requires slots[p].stmt == Null && q.used && q.stmt.To? && q.res == Null && state[Owner(p)] == CONNECTED
    requires q.stmt.id !in live && live' == live[q.stmt.id := Null]
    ensures Owned(state, slots[p := q], live', place[q.stmt.id := p])
  {
    var slots', place' := slots[p := q], place[q.stmt.id := p];
    forall p' | 0 <= p' < SLOTS ensures SlotOwns(state, slots', live', place', p') {
      assert SlotOwns(state, slots, live, place, p');
    }
  }

  // A free slot is taken before it has a statement.
  lemma TakeKeepsOwned(state: seq<int>, slots: seq<Query>, live: map<nat, Pointer>, place: map<nat, int>, p: int)
    requires Owned(state, slots, live, place) && 0 <= p < SLOTS && !slots[p].used && state[Owner(p)] == CONNECTED
    ensures Owned(state, slots[p := EMPTY.(used := true)], live, place)
  {
    var slots' := slots[p := EMPTY.(used := true)];
    forall p' | 0 <= p' < SLOTS ensures SlotOwns(state, slots', live, place, p') {
      assert SlotOwns(state, slots, live, place, p');
    }
    assert SlotOwns(state, slots, live, place, p);
  }

  // A slot changes but keeps its statement, whose result may be a new one.
  lemma EditKeepsOwned(state: seq<int>, slots: seq<Query>, live: map<nat, Pointer>, place: map<nat, int>,
                       p: int, q: Query, live': map<nat, Pointer>)
    requires Owned(state, slots, live, place) && 0 <= p < SLOTS
    requires slots[p].stmt.To? && q.used && q.stmt == slots[p].stmt
    requires live'.Keys == live.Keys && forall id :: id in live && id != q.stmt.id ==> live'[id] == live[id]
    requires q.res.To? ==> q.stmt.id in live' && live'[q.stmt.id] == q.res
    ensures Owned(state, slots[p := q], live', place)
  {
    assert SlotOwns(state, slots, live, place, p);
    var slots' := slots[p := q];
    forall p' | 0 <= p' < SLOTS ensures SlotOwns(state, slots', live', place, p') {
      assert SlotOwns(state, slots, live, place, p');
    }
  }

  // Slot p was free, then taken, and is now filled as far as the library went.
  predicate Filled(before: seq<Query>, live: map<nat, Pointer>, place: map<nat, int>,
                   slots: seq<Query>, live': map<nat, Pointer>, place': map<nat, int>, p: int)
  {
    && 0 <= p < |before| == |slots| && before[p] == EMPTY && slots[p].used && slots == before[p := slots[p]]
    && (slots[p].stmt == Null ==> live' == live && place' == place)
    && (slots[p].stmt.To? ==>
          && slots[p].stmt.id !in live
          && live' == live[slots[p].stmt.id := slots[p].res]
          && place' == place[slots[p].stmt.id := p])
  }

  lemma FilledOn(before: seq<Query>, live: map<nat, Pointer>, place: map<nat, int>,
                 slots: seq<Query>, live': map<nat, Pointer>, place': map<nat, int>, p: int, q: Query)
    requires Filled(before, live, place, slots, live', place', p)
    requires q.used && q.stmt == slots[p].stmt && q.stmt.To?
    ensures Filled(before, live, place, slots[p := q], live'[q.stmt.id := q.res], place', p)
  {
    assert slots[p := q] == before[p := q];
    assert live'[q.stmt.id := q.res] == live[q.stmt.id := q.res];
  }

  // Clearing a filled slot undoes everything.
  lemma FilledUndone(before: seq<Query>, live: map<nat, Pointer>, place: map<nat, int>,
                     slots: seq<Query>, live': map<nat, Pointer>, place': map<nat, int>, p: int)
    requires Filled(before, live, place, slots, live', place', p) && live.Keys == place.Keys
    ensures slots[p := EMPTY] == before
    ensures Without(live', slots[p].stmt) == live && Without(place', slots[p].stmt) == place
  {
    assert before[p := EMPTY] == before;
  }

  // Slots low up to high have been cleared, and what they owned given back.
  ghost predicate Cleared(slots0: seq<Query>, live0: map<nat, Pointer>, place0: map<nat, int>,
                    slots: seq<Query>, live: map<nat, Pointer>, place: map<nat, int>, low: int, high: int)
  {
    && |slots| == |slots0| == SLOTS && place0.Keys == live0.Keys
    && place.Keys == live.Keys
    && (forall p :: 0 <= p < SLOTS ==> slots[p] == if low <= p < high then EMPTY else slots0[p])
    && (forall id :: id in live <==> id in live0 && !(low <= place0[id] < high))
    && (forall id :: id in live ==> live[id] == live0[id] && place[id] == place0[id])
  }

  lemma ClearedMore(slots0: seq<Query>, live0: map<nat, Pointer>, place0: map<nat, int>,
                    slots: seq<Query>, live: map<nat, Pointer>, place: map<nat, int>,
                    slots': seq<Query>, live': map<nat, Pointer>, place': map<nat, int>, low: int, p: int)
    requires Cleared(slots0, live0, place0, slots, live, place, low, p) && 0 <= low <= p < SLOTS
    requires slots' == slots[p := EMPTY] && place'.Keys == live'.Keys
    requires forall id :: id in live' <==> id in live && place[id] != p
    requires forall id :: id in live' ==> live'[id] == live[id] && place'[id] == place[id]
    ensures Cleared(slots0, live0, place0, slots', live', place', low, p + 1)
  {
  }

  /** Handles in use own different statements. */
  lemma HandlesDistinct(state: seq<int>, slots: seq<Query>, live: map<nat, Pointer>, place: map<nat, int>, p: int,
                        q: int)
    requires Owned(state, slots, live, place) && Complete(slots)
    requires 0 <= p < SLOTS && 0 <= q < SLOTS && p != q && slots[p].used && slots[q].used
    ensures slots[p].stmt != slots[q].stmt
  {
    assert SlotOwns(state, slots, live, place, p) && SlotOwns(state, slots, live, place, q);
  }

  /** When no connection is open, nothing of the library is live any more. */
  lemma ClosedMeansFreed(state: seq<int>, slots: seq<Query>, live: map<nat, Pointer>, place: map<nat, int>)
    requires Owned(state, slots, live, place)
    requires forall c :: 0 <= c < EDB_MAX_CONNECTION ==> state[c] != CONNECTED
    ensures live == map[]
  {
    if id :| id in live {
      ClosedIsEmpty(state, slots, live, place, Owner(place[id]));
    }
  }

  // --------------------------------------------------------------------------
  // The API

  class MLApi {
    const lib: IsqlLibrary
    const state: array<int>
    const pool: array<Query>
    var initialised: bool
    // the slot of each live statement
    ghost var place: map<nat, int>

    ghost predicate Valid()
      reads this, state, pool, lib
    {
      && lib.Valid()
      && Owned(state[..], pool[..], lib.live, place)
      && Complete(pool[..])
      && (!initialised ==> forall c :: 0 <= c < state.Length ==> state[c] == FREE)
    }

    constructor (lib: IsqlLibrary)
      requires lib.Valid() && lib.live == map[]
      ensures Valid() && fresh(state) && fresh(pool) && this.lib == lib && !initialised
    {
      this.lib := lib;
      state := new int[EDB_MAX_CONNECTION](_ => FREE);
      pool := new Query[SLOTS](_ => EMPTY);
      initialised, place := false, map[];
    }

    method GetConnection() returns (connid: int)
      requires Valid()
      modifies this`initialised, state
      ensures Valid() && initialised
      ensures connid == EDB_ERROR_OVERFLOW_CONNECT || 0 <= connid < EDB_MAX_CONNECTION
      ensures connid < 0 <==> forall c :: 0 <= c < EDB_MAX_CONNECTION ==> old(state[c]) != FREE
      ensures connid >= 0 ==> old(state[connid]) == FREE && state[..] == old(state[..])[connid := RESERVED]
      ensures connid < 0 ==> state[..] == old(state[..])
    {
      if !initialised {
        initialised := true;
        ClosedIsEmpty(state[..], pool[..], lib.live, place, 0);
        StateKeepsOwned(state[..], pool[..], lib.live, place, 0, RESERVED);
        state[0] := RESERVED;
        assert state[..] == old(state[..])[0 := RESERVED];
        assert old(state[0]) == FREE;
        return 0;
      }
      var i := 0;
      while i < EDB_MAX_CONNECTION
        invariant 0 <= i <= EDB_MAX_CONNECTION
        invariant forall c :: 0 <= c < i ==> state[c] != FREE
      {
        if state[i] == FREE {
          break;
        }
        i := i + 1;
      }
      if i == EDB_MAX_CONNECTION {
        return EDB_ERROR_OVERFLOW_CONNECT;
      }
      ClosedIsEmpty(state[..], pool[..], lib.live, place, i);
      StateKeepsOwned(state[..], pool[..], lib.live, place, i, RESERVED);
      state[i] := RESERVED;
      assert state[..] == old(state[..])[i := RESERVED];
      return i;
    }

    /** Connecting clears the statement slots without losing anything live. */
    method Connect(connid: int, answers: Answers) returns (r: int)
      requires Valid()
      modifies state, pool
      ensures Valid()
      ensures r == if !(0 <= connid < EDB_MAX_CONNECTION && old(state[connid]) == RESERVED)
                   then EDB_ERROR_INVALID_CONNID
                   else if !answers.connects then EDB_ERROR_CONNECT else connid
      ensures state[..] == if r >= 0 then old(state[..])[connid := CONNECTED] else old(state[..])
      ensures pool[..] == old(pool[..])
    {
      if connid < 0 || connid >= EDB_MAX_CONNECTION || state[connid] != RESERVED {
        return EDB_ERROR_INVALID_CONNID;
      }
      if !answers.connects {
        state[connid] := RESERVED;
        assert state[..] == old(state[..]);
        return EDB_ERROR_CONNECT;
      }
      ClosedIsEmpty(state[..], pool[..], lib.live, place, connid);
      StateKeepsOwned(state[..], pool[..], lib.live, place, connid, CONNECTED);
      state[connid] := CONNECTED;
      assert state[..] == old(state[..])[connid := CONNECTED];
      forall i | 0 <= i < EDB_MAX_STMT_HANDLE_CNT {
        pool[Slot(connid, i)] := EMPTY;
      }
      assert pool[..] == old(pool[..]);
      assert state[..] == old(state[..])[connid := CONNECTED];
      assert Owned(state[..], pool[..], lib.live, place);
      return connid;
    }

    /** Frees the statement of a slot, once, and its result with it. */
    method DestroyQuery(connid: int, hstmt: int) returns (r: int)
      requires lib.Valid() && Owned(state[..], pool[..], lib.live, place)
      requires CompleteBut(pool[..], Slot(connid, hstmt))
      requires !initialised ==> forall c :: 0 <= c < state.Length ==> state[c] == FREE
      modifies this`place, pool, lib
      ensures r == if !(0 <= connid < EDB_MAX_CONNECTION && state[connid] == CONNECTED) then EDB_ERROR_INVALID_CONNID
                   else if !(0 <= hstmt < EDB_MAX_STMT_HANDLE_CNT && old(pool[Slot(connid, hstmt)]).used)
                   then EDB_ERROR_MISS_HANDLE
                   else 0
      ensures r == 0 ==> Valid()
      ensures pool[..] == if r == 0 then old(pool[..])[Slot(connid, hstmt) := EMPTY] else old(pool[..])
      ensures lib.live == if r == 0 then Without(old(lib.live), old(pool[Slot(connid, hstmt)]).stmt) else old(lib.live)
      ensures place == if r == 0 then Without(old(place), old(pool[Slot(connid, hstmt)]).stmt) else old(place)
      ensures lib.Valid()
    {
      if connid < 0 || connid >= EDB_MAX_CONNECTION || state[connid] != CONNECTED {
        return EDB_ERROR_INVALID_CONNID;
      }
      if hstmt < 0 || hstmt >= EDB_MAX_STMT_HANDLE_CNT || !pool[Slot(connid, hstmt)].used {
        return EDB_ERROR_MISS_HANDLE;
      }
      DestroySlot(Slot(connid, hstmt));
      return 0;
    }

    // Give back what a slot in use owns, and the slot.
    method DestroySlot(p: int)
      requires lib.Valid() && Owned(state[..], pool[..], lib.live, place) && 0 <= p < SLOTS
      modifies this`place, pool, lib
      ensures lib.Valid() && Owned(state[..], pool[..], lib.live, place)
      ensures pool[..] == old(pool[..])[p := EMPTY]
      ensures lib.live == Without(old(lib.live), old(pool[p]).stmt)
      ensures place == Without(old(place), old(pool[p]).stmt)
    {
      var stmtptr := pool[p];
      assert SlotOwns(state[..], pool[..], lib.live, place, p);
      ClearKeepsOwned(state[..], pool[..], lib.live, place, p);
      if stmtptr.res.To? {
        lib.FreeResult(stmtptr.stmt.id, stmtptr.res);
        stmtptr := stmtptr.(res := Null);
      }
      if stmtptr.stmt.To? {
        lib.StmtClose(stmtptr.stmt.id);
        place := place - {stmtptr.stmt.id};
        stmtptr := stmtptr.(stmt := Null);
      }
      if stmtptr.bindParam {
        stmtptr := stmtptr.(bindParam := false);
      }
      if stmtptr.bindRes {
        stmtptr := stmtptr.(bindRes := false);
      }
      pool[p] := stmtptr.(used := false);
      assert pool[..] == old(pool[..])[p := EMPTY];
    }

    ghost predicate Sound()
      reads this, state, pool, lib
    {
      lib.Valid() && Owned(state[..], pool[..], lib.live, place)
    }

    // The three calls into the library that fill a slot.

    method PrepareInto(p: int, succeeds: bool) returns (stmt: Pointer)
      requires Sound() && 0 <= p < SLOTS && state[Owner(p)] == CONNECTED && pool[p] == EMPTY.(used := true)
      modifies this`place, pool, lib
      ensures Sound() && (stmt.To? <==> succeeds)
      ensures pool[..] == old(pool[..])[p := EMPTY.(used := true, stmt := stmt)]
      ensures stmt == Null ==> lib.live == old(lib.live) && place == old(place)
      ensures stmt.To? ==> stmt.id !in old(lib.live)
      ensures stmt.To? ==> lib.live == old(lib.live)[stmt.id := Null] && place == old(place)[stmt.id := p]
    {
      stmt := lib.Prepare(succeeds);
      if stmt.To? {
        FillKeepsOwned(state[..], pool[..], old(lib.live), place, p, pool[p].(stmt := stmt), lib.live);
        place := place[stmt.id := p];
      }
      pool[p] := pool[p].(stmt := stmt);
      assert pool[..] == old(pool[..])[p := EMPTY.(used := true, stmt := stmt)];
    }

    method DescribeInto(p: int)
      requires Sound() && 0 <= p < SLOTS && pool[p].used && pool[p].stmt.To?
      modifies pool
      ensures Sound()
      ensures pool[..] == old(pool[..])[p := old(pool[p]).(bindParam := true, bindRes := true)]
    {
      assert SlotOwns(state[..], pool[..], lib.live, place, p);
      EditKeepsOwned(state[..], pool[..], lib.live, place, p, pool[p].(bindParam := true, bindRes := true), lib.live);
      pool[p] := pool[p].(bindParam := true, bindRes := true);
      assert pool[..] == old(pool[..])[p := old(pool[p]).(bindParam := true, bindRes := true)];
    }

    method ResultInto(p: int, allocates: bool) returns (res: Pointer)
      requires Sound() && 0 <= p < SLOTS && pool[p].used && pool[p].stmt.To? && pool[p].stmt.id in lib.live
      requires lib.live[pool[p].stmt.id] == Null
      modifies pool, lib
      ensures Sound() && (res.To? <==> allocates)
      ensures pool[..] == old(pool[..])[p := old(pool[p]).(res := res)]
      ensures lib.live == old(lib.live)[old(pool[p]).stmt.id := res]
    {
      res := lib.PrepareResult(pool[p].stmt.id, allocates);
      EditKeepsOwned(state[..], pool[..], old(lib.live), place, p, pool[p].(res := res), lib.live);
      pool[p] := pool[p].(res := res);
      assert pool[..] == old(pool[..])[p := old(pool[p]).(res := res)];
    }

    // Fills a slot that was just taken, as far as the library goes along.
    method FillSlot(p: int, answers: Answers, ghost before: seq<Query>) returns (ok: bool, result: int)
      requires Sound() && 0 <= p < SLOTS && state[Owner(p)] == CONNECTED && pool[p] == EMPTY.(used := true)
      requires Filled(before, lib.live, place, pool[..], lib.live, place, p)
      modifies this`place, pool, lib
      ensures Sound()
      ensures ok <==> answers.prepares && answers.describes >= 0 && (answers.selects ==> answers.allocates)
      ensures Filled(before, old(lib.live), old(place), pool[..], lib.live, place, p)
      ensures ok ==> pool[p].stmt.To? && (answers.selects <==> pool[p].res.To?)
    {
      var stmt := PrepareInto(p, answers.prepares);
      assert pool[..] == before[p := pool[p]];
      if stmt == Null {
        return false, answers.errno;
      }
      if answers.describes < 0 {
        return false, answers.describes;
      }
      ghost var slots, live := pool[..], lib.live;
      DescribeInto(p);
      FilledOn(before, old(lib.live), old(place), slots, live, place, p, pool[p]);
      assert lib.live[stmt.id := Null] == lib.live;
      if answers.selects {
        slots := pool[..];
        var res := ResultInto(p, answers.allocates);
        FilledOn(before, old(lib.live), old(place), slots, live, place, p, pool[p]);
        if res == Null {
          return false, answers.errno;
        }
      }
      return true, 0;
    }

    method TakeFreeSlot(connid: int) returns (i: int)
      requires Valid() && 0 <= connid < EDB_MAX_CONNECTION && state[connid] == CONNECTED
      modifies pool
      ensures Sound() && 0 <= i <= EDB_MAX_STMT_HANDLE_CNT
      ensures forall j :: 0 <= j < i ==> old(pool[Slot(connid, j)]).used
      ensures i == EDB_MAX_STMT_HANDLE_CNT ==> Valid() && pool[..] == old(pool[..])
      ensures i < EDB_MAX_STMT_HANDLE_CNT ==> old(pool[Slot(connid, i)]) == EMPTY
      ensures i < EDB_MAX_STMT_HANDLE_CNT ==> pool[..] == old(pool[..])[Slot(connid, i) := EMPTY.(used := true)]
    {
      i := 0;
      while i < EDB_MAX_STMT_HANDLE_CNT
        invariant 0 <= i <= EDB_MAX_STMT_HANDLE_CNT
        invariant forall j :: 0 <= j < i ==> pool[Slot(connid, j)].used
      {
        var p := Slot(connid, i);
        if !pool[p].used {
          assert SlotOwns(state[..], pool[..], lib.live, place, p);
          TakeKeepsOwned(state[..], pool[..], lib.live, place, p);
          pool[p] := pool[p].(used := true);
          assert pool[..] == old(pool[..])[p := EMPTY.(used := true)];
          return;
        }
        i := i + 1;
      }
    }

    /** Takes the first free slot for a new statement; a create that fails
        leaves slots and library as they were. */
    method CreateQuery(connid: int, answers: Answers) returns (r: int, created: bool)
      requires Valid()
      modifies this`place, pool, lib
      ensures Valid()
      ensures created <==>
        && 0 <= connid < EDB_MAX_CONNECTION && state[connid] == CONNECTED
        && (exists i :: 0 <= i < EDB_MAX_STMT_HANDLE_CNT && !old(pool[Slot(connid, i)]).used)
        && answers.prepares && answers.describes >= 0 && (answers.selects ==> answers.allocates)
      ensures created ==> 0 <= r < EDB_MAX_STMT_HANDLE_CNT && old(pool[Slot(connid, r)]) == EMPTY
      ensures created ==> forall i :: 0 <= i < r ==> old(pool[Slot(connid, i)]).used
      ensures created ==> var q := pool[Slot(connid, r)];
        && q.used && q.stmt.To? && q.stmt.id !in old(lib.live) && (answers.selects <==> q.res.To?)
        && pool[..] == old(pool[..])[Slot(connid, r) := q]
        && lib.live == old(lib.live)[q.stmt.id := q.res]
      ensures !created ==> pool[..] == old(pool[..]) && lib.live == old(lib.live) && place == old(place)
    {
      if connid < 0 || connid >= EDB_MAX_CONNECTION || state[connid] != CONNECTED {
        return EDB_ERROR_INVALID_CONNID, false;
      }
      var i := TakeFreeSlot(connid);
      if i == EDB_MAX_STMT_HANDLE_CNT {
        return EDB_ERROR_OVERFLOW_QUERY, false;
      }
      ghost var p := Slot(connid, i);
      assert pool[..] == old(pool[..])[p := pool[p]];
      var ok, result := FillSlot(Slot(connid, i), answers, old(pool[..]));
      if ok {
        assert Complete(pool[..]);
        return i, true;
      }
      FilledUndone(old(pool[..]), old(lib.live), old(place), pool[..], lib.live, place, p);
      var d := DestroyQuery(connid, i);
      return result, false;
    }

    /** Lets go of the slot's result. The library keeps the result with its
        statement, so nothing is freed here and nothing can be freed twice. */
    method ClearRow(connid: int, hstmt: int) returns (r: int)
      requires Valid()
      modifies pool
      ensures Valid() && lib.live == old(lib.live)
      ensures r == if !(0 <= connid < EDB_MAX_CONNECTION && state[connid] == CONNECTED) then EDB_ERROR_INVALID_CONNID
                   else if !(0 <= hstmt < EDB_MAX_STMT_HANDLE_CNT && old(pool[Slot(connid, hstmt)]).used)
                   then EDB_ERROR_MISS_HANDLE
                   else 0
      ensures pool[..] == if r == 0
                          then old(pool[..])[Slot(connid, hstmt) := old(pool[Slot(connid, hstmt)]).(res := Null)]
                          else old(pool[..])
    {
      if connid < 0 || connid >= EDB_MAX_CONNECTION || state[connid] != CONNECTED {
        return EDB_ERROR_INVALID_CONNID;
      }
      if hstmt < 0 || hstmt >= EDB_MAX_STMT_HANDLE_CNT || !pool[Slot(connid, hstmt)].used
         || pool[Slot(connid, hstmt)].stmt == Null {
        return EDB_ERROR_MISS_HANDLE;
      }
      var p := Slot(connid, hstmt);
      assert SlotOwns(state[..], pool[..], lib.live, place, p);
      if pool[p].res.To? {
        lib.FreeResult(pool[p].stmt.id, pool[p].res);
        EditKeepsOwned(state[..], pool[..], lib.live, place, p, pool[p].(res := Null), lib.live);
        pool[p] := pool[p].(res := Null);
      }
      assert pool[..] == old(pool[..])[p := old(pool[p]).(res := Null)];
      return 0;
    }

    /** Frees every statement of the connection, and no other. The number is not
        tested; outside the table the source reads what lies there, which is the
        outcome `undefined` here. */
    method Disconnect(connid: int) returns (r: int, undefined: bool)
      requires Valid()
      modifies this`place, state, pool, lib
      ensures Valid() && r == connid
      ensures undefined <==> !(0 <= connid < EDB_MAX_CONNECTION)
      ensures undefined ==> state[..] == old(state[..]) && pool[..] == old(pool[..]) && lib.live == old(lib.live)
      ensures !undefined ==>
        state[..] == if old(state[connid]) == CONNECTED then old(state[..])[connid := RESERVED] else old(state[..])
      ensures !undefined ==> forall p :: 0 <= p < SLOTS ==>
                pool[p] == if Owner(p) == connid then EMPTY else old(pool[p])
      ensures !undefined ==> forall id :: id in lib.live <==> id in old(lib.live) && Owner(old(place)[id]) != connid
      ensures forall id :: id in lib.live ==> lib.live[id] == old(lib.live)[id]
    {
      r, undefined := connid, !(0 <= connid < EDB_MAX_CONNECTION);
      if undefined {
        return;
      }
      if state[connid] != CONNECTED {
        ClosedIsEmpty(state[..], pool[..], lib.live, place, connid);
        forall id | id in lib.live ensures Owner(place[id]) != connid {
          assert pool[place[id]].stmt == To(id);
        }
        return;
      }
      DestroyAll(connid);
      StateKeepsOwned(state[..], pool[..], lib.live, place, connid, RESERVED);
      state[connid] := RESERVED;
      assert state[..] == old(state[..])[connid := RESERVED];
    }

    // The loop of Disconnect.
    method DestroyAll(connid: int)
      requires Valid() && 0 <= connid < EDB_MAX_CONNECTION && state[connid] == CONNECTED
      modifies this`place, pool, lib
      ensures Valid()
      ensures forall p :: 0 <= p < SLOTS ==> pool[p] == if Owner(p) == connid then EMPTY else old(pool[p])
      ensures forall id :: id in lib.live <==> id in old(lib.live) && Owner(old(place)[id]) != connid
      ensures forall id :: id in lib.live ==> lib.live[id] == old(lib.live)[id]
    {
      var low := Slot(connid, 0);
      var i := 0;
      ghost var pool0, live0, place0 := pool[..], lib.live, place;
      while i < EDB_MAX_STMT_HANDLE_CNT
        invariant 0 <= i <= EDB_MAX_STMT_HANDLE_CNT && Valid()
        invariant Cleared(pool0, live0, place0, pool[..], lib.live, place, low, low + i)
      {
        ghost var slots, live, at := pool[..], lib.live, place;
        DestroyOne(connid, i);
        ClearedMore(pool0, live0, place0, slots, live, at, pool[..], lib.live, place, low, low + i);
        i := i + 1;
      }
    }

    method DestroyOne(connid: int, i: int)
      requires Valid() && 0 <= connid < EDB_MAX_CONNECTION && state[connid] == CONNECTED
      requires 0 <= i < EDB_MAX_STMT_HANDLE_CNT
      modifies this`place, pool, lib
      ensures Valid()
      ensures pool[..] == old(pool[..])[Slot(connid, i) := EMPTY]
      ensures forall id :: id in lib.live <==> id in old(lib.live) && old(place)[id] != Slot(connid, i)
      ensures forall id :: id in lib.live ==> lib.live[id] == old(lib.live)[id] && place[id] == old(place)[id]
    {
      var p := Slot(connid, i);
      assert SlotOwns(state[..], pool[..], lib.live, place, p);
      forall id | id in lib.live ensures place[id] == p <==> pool[p].stmt == To(id) {
        assert pool[place[id]].stmt == To(id);
      }
      if pool[p].used && pool[p].stmt.To? {
        var d := DestroyQuery(connid, i);
      } else {
        assert pool[..] == pool[..][p := EMPTY];
      }
    }

    method ReleaseConnection(connid: int)
      requires Valid()
      modifies this`place, state, pool, lib
      ensures Valid()
      ensures initialised && 0 <= connid < EDB_MAX_CONNECTION ==>
        && state[..] == old(state[..])[connid := FREE]
        && (forall p :: 0 <= p < SLOTS ==> pool[p] == if Owner(p) == connid then EMPTY else old(pool[p]))
        && (forall id :: id in lib.live <==> id in old(lib.live) && Owner(old(place)[id]) != connid)
      ensures !(initialised && 0 <= connid < EDB_MAX_CONNECTION) ==>
        state[..] == old(state[..]) && pool[..] == old(pool[..]) && lib.live == old(lib.live)
    {
      if !initialised {
        return;
      }
      if connid >= 0 && connid < EDB_MAX_CONNECTION {
        var r, undefined := Disconnect(connid);
        StateKeepsOwned(state[..], pool[..], lib.live, place, connid, FREE);
        label disconnected:
        state[connid] := FREE;
        assert state[..] == old@disconnected(state[..])[connid := FREE];
      }
    }
  }
}
