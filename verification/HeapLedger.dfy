/**
  The allocation ledger of the porting layer's checked build: a fixed table with
  one entry per block, the current and the highest total of allocated bytes.
*/
module HeapLedger {

  const MAX_CHECK_MALLOC_FREE: nat := 10000

  type Ptr = nat
  const NULL: Ptr := 0

  // flag: -1 never used, 0 released, 1 in use
  datatype Entry = Entry(flag: int, ptr: Ptr, size: int, level: int)

  const ZERO: Entry := Entry(0, NULL, 0, 0)
  const NEVER: Entry := Entry(-1, NULL, 0, -1)

  datatype Ledger = Ledger(entries: seq<Entry>, ready: bool, level: int, cur: int, max: int)

  // p is what the underlying allocator answers, NULL when it has no room.
  datatype Op = Malloc(size: nat, p: Ptr) | StrDup(len: nat, p: Ptr) | Free(p: Ptr) | UpLevel

  datatype Outcome = Next(ledger: Ledger) | Overrun | Aborted

  // A size is kept in a 32-bit int.
  function Int32(x: int): int { (x + 0x8000_0000) % 0x1_0000_0000 - 0x8000_0000 }

  // First entry at or after i that is not in use.
  function SlotFrom(es: seq<Entry>, i: nat): (r: nat)
    requires i <= |es|
    ensures i <= r <= |es|
    ensures forall j :: i <= j < r ==> es[j].flag != -1 && es[j].flag != 0
    ensures r < |es| ==> es[r].flag == -1 || es[r].flag == 0
    decreases |es| - i
  {
    if i == |es| || es[i].flag == -1 || es[i].flag == 0 then i else SlotFrom(es, i + 1)
  }

  // First entry at or after i that is not released and holds p.
  function FindFrom(es: seq<Entry>, p: Ptr, i: nat): (r: nat)
    requires i <= |es|
    ensures i <= r <= |es|
    ensures forall j :: i <= j < r ==> es[j].flag == 0 || es[j].ptr != p
    ensures r < |es| ==> es[r].flag != 0 && es[r].ptr == p
    decreases |es| - i
  {
    if i == |es| || (es[i].flag != 0 && es[i].ptr == p) then i else FindFrom(es, p, i + 1)
  }

  function Blank(): seq<Entry> { seq(MAX_CHECK_MALLOC_FREE, _ => NEVER) }

  function Higher(a: int, b: int): int { if a > b then a else b }

  function Recorded(l: Ledger, p: Ptr, size: int): Outcome
  {
    var i := SlotFrom(l.entries, 0);
    if i == |l.entries| then Overrun
    else Next(l.(entries := l.entries[i := Entry(1, p, size, l.level)]))
  }

  // The first allocation wipes the table.
  function Opened(l: Ledger): Ledger { if l.ready then l else l.(entries := Blank(), ready := true) }

  function Step(l: Ledger, op: Op): Outcome
  {
    match op
    case Malloc(size, p) =>
      var cur := l.cur + size;
      var m := Opened(l).(cur := cur, max := Higher(cur, l.max));
      if p == NULL then Next(m) else Recorded(m, p, Int32(size))
    case StrDup(len, p) =>
      if p == NULL then Next(l)
      else Recorded(l.(cur := l.cur + Int32(len), max := Higher(l.cur + Int32(len), l.max)), p, Int32(len))
    case Free(p) =>
      var i := FindFrom(l.entries, p, 0);
      if i == |l.entries| then Aborted
      else Next(l.(entries := l.entries[i := l.entries[i].(flag := 0, ptr := NULL)], cur := l.cur - l.entries[i].size))
    case UpLevel => Next(l.(level := l.level + 1))
  }

  // ---------- the total ----------

  function Weight(e: Entry): int { if e.flag == 1 then e.size else 0 }

  function Total(es: seq<Entry>): int
  {
    if es == [] then 0 else Total(es[..|es| - 1]) + Weight(es[|es| - 1])
  }

  lemma {:induction false} TotalUpdate(es: seq<Entry>, i: nat, e: Entry)
    requires i < |es|
    ensures Total(es[i := e]) == Total(es) - Weight(es[i]) + Weight(e)
    decreases |es|
  {
    var n := |es| - 1;
    if i < n {
      TotalUpdate(es[..n], i, e);
      assert es[i := e][..n] == es[..n][i := e];
    } else {
      assert es[i := e][..n] == es[..n];
    }
  }

  lemma {:induction false} TotalOfUnused(es: seq<Entry>)
    requires forall i :: 0 <= i < |es| ==> es[i].flag != 1
    ensures Total(es) == 0
    decreases |es|
  {
    if es != [] {
      TotalOfUnused(es[..|es| - 1]);
    }
  }

  // ---------- what the ledger stands for ----------

  // `live` maps the blocks in the caller's hands to their sizes.
  ghost predicate Shaped(es: seq<Entry>)
  {
    && |es| == MAX_CHECK_MALLOC_FREE
    && (forall i :: 0 <= i < |es| ==> -1 <= es[i].flag <= 1)
    && (forall i :: 0 <= i < |es| && es[i].flag == -1 ==> es[i].ptr == NULL && es[i].size == 0)
    && (forall i, j :: 0 <= i < j < |es| && es[i].flag == -1 ==> es[j].flag == -1)
  }

  ghost predicate Mirrors(es: seq<Entry>, live: map<Ptr, nat>)
  {
    && NULL !in live
    && (forall i :: 0 <= i < |es| && es[i].flag == 1 ==> es[i].ptr in live && live[es[i].ptr] == es[i].size)
    && (forall p :: p in live ==> FindFrom(es, p, 0) < |es|)
    && (forall i, j :: 0 <= i < j < |es| && es[i].flag == 1 && es[j].flag == 1 ==> es[i].ptr != es[j].ptr)
  }

  ghost predicate Tidy(l: Ledger, live: map<Ptr, nat>)
  {
    && Shaped(l.entries) && Mirrors(l.entries, live)
    && (!l.ready ==> forall i :: 0 <= i < |l.entries| ==> l.entries[i].flag == 0)
    && l.cur == Total(l.entries) <= l.max
  }

  function LiveAfter(live: map<Ptr, nat>, op: Op): map<Ptr, nat>
  {
    match op
    case Malloc(size, p) => if p == NULL then live else live[p := size]
    case StrDup(len, p) => if p == NULL then live else live[p := len]
    case Free(p) => live - {p}
    case UpLevel => live
  }

  predicate NeverUsedLeft(es: seq<Entry>) { es != [] && es[|es| - 1].flag == -1 }

  // A call that succeeds within the capacity, on a block the allocator was free to hand out.
  predicate Clean(l: Ledger, live: map<Ptr, nat>, op: Op)
  {
    match op
    case Malloc(size, p) =>
      && (p == NULL ==> size == 0) && p !in live && size < 0x8000_0000
      && (l.ready ==> SlotFrom(l.entries, 0) < |l.entries|)
    case StrDup(len, p) =>
      p == NULL || (l.ready && p !in live && len < 0x8000_0000 && SlotFrom(l.entries, 0) < |l.entries|)
    case Free(p) => p in live || (p == NULL && NeverUsedLeft(l.entries))
    case UpLevel => true
  }

  lemma RecordKeepsShaped(es: seq<Entry>, e: Entry)
    requires Shaped(es) && SlotFrom(es, 0) < |es| && e.flag == 1
    ensures Shaped(es[SlotFrom(es, 0) := e])
  {
    var i := SlotFrom(es, 0);
    var es' := es[i := e];
    assert forall j :: 0 <= j < |es| && j != i ==> es'[j] == es[j];
    assert forall j :: 0 <= j < i ==> es[j].flag == 1;
  }

  lemma RecordKeepsMirrors(es: seq<Entry>, live: map<Ptr, nat>, p: Ptr, size: nat, level: int)
    requires Shaped(es) && Mirrors(es, live) && p != NULL && p !in live
    requires SlotFrom(es, 0) < |es|
    ensures Mirrors(es[SlotFrom(es, 0) := Entry(1, p, size, level)], live[p := size])
  {
    var i := SlotFrom(es, 0);
    var es', live' := es[i := Entry(1, p, size, level)], live[p := size];
    forall j | 0 <= j < |es'| && es'[j].flag == 1
      ensures es'[j].ptr in live' && live'[es'[j].ptr] == es'[j].size
    {
      if j != i {
        assert es'[j] == es[j];
      }
    }
    forall q | q in live'
      ensures FindFrom(es', q, 0) < |es'|
    {
      var j := if q == p then i else FindFrom(es, q, 0);
      assert es'[j].flag == 1 && es'[j].ptr == q;
    }
    forall j, m | 0 <= j < m < |es'| && es'[j].flag == 1 && es'[m].flag == 1
      ensures es'[j].ptr != es'[m].ptr
    {
      assert j != i ==> es'[j] == es[j];
      assert m != i ==> es'[m] == es[m];
    }
  }

  lemma RecordKeepsTidy(es: seq<Entry>, live: map<Ptr, nat>, p: Ptr, size: nat, level: int)
    requires Shaped(es) && Mirrors(es, live) && p != NULL && p !in live
    requires SlotFrom(es, 0) < |es|
    ensures var es' := es[SlotFrom(es, 0) := Entry(1, p, size, level)];
            Shaped(es') && Mirrors(es', live[p := size]) && Total(es') == Total(es) + size
  {
    RecordKeepsShaped(es, Entry(1, p, size, level));
    RecordKeepsMirrors(es, live, p, size, level);
    TotalUpdate(es, SlotFrom(es, 0), Entry(1, p, size, level));
  }

  lemma ReleaseKeepsShaped(es: seq<Entry>, i: nat)
    requires Shaped(es) && i < |es| && es[i].flag != 0 &&
             (es[i].flag == -1 ==> forall j :: 0 <= j < i ==> es[j].flag != -1)
    ensures Shaped(es[i := es[i].(flag := 0, ptr := NULL)])
  {
    var es' := es[i := es[i].(flag := 0, ptr := NULL)];
    assert forall j :: 0 <= j < |es| && j != i ==> es'[j] == es[j];
  }

  // Entries in use other than the one released.
  lemma OthersStay(es: seq<Entry>, live: map<Ptr, nat>, p: Ptr, j: nat)
    requires Mirrors(es, live) && FindFrom(es, p, 0) < |es|
    requires j < |es| && j != FindFrom(es, p, 0) && es[j].flag == 1
    requires es[FindFrom(es, p, 0)].flag == 1 || p == NULL
    ensures es[j].ptr != p && es[j].ptr in live && live[es[j].ptr] == es[j].size
  {
  }

  lemma ReleaseKeepsMirrors(es: seq<Entry>, live: map<Ptr, nat>, p: Ptr)
    requires Shaped(es) && Mirrors(es, live) && FindFrom(es, p, 0) < |es|
    ensures var i := FindFrom(es, p, 0);
            Mirrors(es[i := es[i].(flag := 0, ptr := NULL)], live - {p})
  {
    var i := FindFrom(es, p, 0);
    var es', live' := es[i := es[i].(flag := 0, ptr := NULL)], live - {p};
    forall j | 0 <= j < |es'| && es'[j].flag == 1
      ensures es'[j].ptr in live' && live'[es'[j].ptr] == es'[j].size
    {
      OthersStay(es, live, p, j);
    }
    forall q | q in live'
      ensures FindFrom(es', q, 0) < |es'|
    {
      var j := FindFrom(es, q, 0);
      assert j != i && es'[j] == es[j];
    }
    forall j, m | 0 <= j < m < |es'| && es'[j].flag == 1 && es'[m].flag == 1
      ensures es'[j].ptr != es'[m].ptr
    {
      assert es'[j] == es[j] && es'[m] == es[m];
    }
  }

  lemma ReleaseKeepsTidy(es: seq<Entry>, live: map<Ptr, nat>, p: Ptr)
    requires Shaped(es) && Mirrors(es, live)
    requires FindFrom(es, p, 0) < |es|
    ensures var i := FindFrom(es, p, 0);
            var es' := es[i := es[i].(flag := 0, ptr := NULL)];
            Shaped(es') && Mirrors(es', live - {p}) && Total(es') == Total(es) - es[i].size
    ensures p in live ==> es[FindFrom(es, p, 0)].size == live[p]
    ensures p !in live ==> p == NULL && es[FindFrom(es, p, 0)].size == 0
  {
    var i := FindFrom(es, p, 0);
    assert es[i].flag == 1 || es[i].flag == -1;
    if es[i].flag == 1 {
      assert es[i].ptr in live;
    } else {
      FirstNeverUsed(es, i);
    }
    ReleaseKeepsShaped(es, i);
    ReleaseKeepsMirrors(es, live, p);
    TotalUpdate(es, i, es[i].(flag := 0, ptr := NULL));
  }

  // NULL is found at the first never used entry.
  lemma FirstNeverUsed(es: seq<Entry>, i: nat)
    requires Shaped(es) && i < |es| && i == FindFrom(es, NULL, 0) && es[i].flag == -1
    ensures forall j :: 0 <= j < i ==> es[j].flag != -1
  {
  }

  lemma BlankIsTidy()
    ensures Shaped(Blank()) && Mirrors(Blank(), map[]) && Total(Blank()) == 0
    ensures SlotFrom(Blank(), 0) == 0
  {
    TotalOfUnused(Blank());
  }

  /** Conservation: a clean call leaves a ledger whose entries in use are exactly
      the live blocks, whose total is the sum of their sizes, and whose never used
      entries come last; the highest total takes in the new one. */
  lemma StepKeepsTidy(l: Ledger, live: map<Ptr, nat>, op: Op)
    requires Tidy(l, live) && Clean(l, live, op)
    ensures Step(l, op).Next? && Tidy(Step(l, op).ledger, LiveAfter(live, op))
    ensures Step(l, op).ledger.max == Higher(Step(l, op).ledger.cur, l.max)
  {
    match op
    case Malloc(size, p) => MallocKeepsTidy(l, live, size, p);
    case StrDup(len, p) => StrDupKeepsTidy(l, live, len, p);
    case Free(p) => ReleasedIsTidy(l, live, p);
    case UpLevel =>
  }

  lemma StrDupKeepsTidy(l: Ledger, live: map<Ptr, nat>, len: nat, p: Ptr)
    requires Tidy(l, live) && Clean(l, live, StrDup(len, p))
    ensures Step(l, StrDup(len, p)).Next? && Tidy(Step(l, StrDup(len, p)).ledger, LiveAfter(live, StrDup(len, p)))
  {
    if p != NULL {
      RecordKeepsTidy(l.entries, live, p, len, l.level);
      StrDupFields(l, len, p);
      assert LiveAfter(live, StrDup(len, p)) == live[p := len];
    }
  }

  lemma StrDupFields(l: Ledger, len: nat, p: Ptr)
    requires p != NULL && len < 0x8000_0000 && SlotFrom(l.entries, 0) < |l.entries|
    ensures Step(l, StrDup(len, p)) == Next(Ledger(l.entries[SlotFrom(l.entries, 0) := Entry(1, p, len, l.level)],
                                                   l.ready, l.level, l.cur + len, Higher(l.cur + len, l.max)))
  {
  }

  lemma MallocKeepsTidy(l: Ledger, live: map<Ptr, nat>, size: nat, p: Ptr)
    requires Tidy(l, live) && Clean(l, live, Malloc(size, p))
    ensures Step(l, Malloc(size, p)).Next? && Tidy(Step(l, Malloc(size, p)).ledger, LiveAfter(live, Malloc(size, p)))
  {
    var o := Opened(l);
    OpenedIsTidy(l, live);
    MallocOnReady(o, live, size, p);
    assert Step(l, Malloc(size, p)) == Step(o, Malloc(size, p));
  }

  lemma MallocOnReady(l: Ledger, live: map<Ptr, nat>, size: nat, p: Ptr)
    requires Tidy(l, live) && l.ready && Clean(l, live, Malloc(size, p))
    ensures Step(l, Malloc(size, p)).Next? && Tidy(Step(l, Malloc(size, p)).ledger, LiveAfter(live, Malloc(size, p)))
  {
    if p == NULL {
      assert Step(l, Malloc(size, p)) == Next(l);
    } else {
      StrDupKeepsTidy(l, live, size, p);
      MallocIsStrDup(l, size, p);
      assert LiveAfter(live, Malloc(size, p)) == LiveAfter(live, StrDup(size, p));
    }
  }

  lemma MallocIsStrDup(l: Ledger, size: nat, p: Ptr)
    requires l.ready && p != NULL && size < 0x8000_0000
    ensures Step(l, Malloc(size, p)) == Step(l, StrDup(size, p))
  {
    IntHolds(size);
  }

  lemma ReleasedIsTidy(l: Ledger, live: map<Ptr, nat>, p: Ptr)
    requires Tidy(l, live) && Clean(l, live, Free(p))
    ensures Step(l, Free(p)).Next? && Tidy(Step(l, Free(p)).ledger, live - {p})
    ensures Step(l, Free(p)).ledger.cur <= l.cur
  {
    FreeIsFound(l, live, p);
    ReleaseKeepsTidy(l.entries, live, p);
  }

  lemma OpenedIsTidy(l: Ledger, live: map<Ptr, nat>)
    requires Tidy(l, live)
    ensures Tidy(Opened(l), live)
    ensures !l.ready ==> SlotFrom(Opened(l).entries, 0) == 0
  {
    if !l.ready {
      BlankIsTidy();
      TotalOfUnused(l.entries);
      NothingLive(l.entries, live);
    }
  }

  lemma NothingLive(es: seq<Entry>, live: map<Ptr, nat>)
    requires Mirrors(es, live) && forall i :: 0 <= i < |es| ==> es[i].flag == 0
    ensures live == map[]
  {
    assert forall p :: p !in live;
  }

  lemma FreeIsFound(l: Ledger, live: map<Ptr, nat>, p: Ptr)
    requires Tidy(l, live)
    ensures FindFrom(l.entries, p, 0) < |l.entries| <==> p in live || (p == NULL && NeverUsedLeft(l.entries))
    ensures FindFrom(l.entries, p, 0) < |l.entries| && l.entries[FindFrom(l.entries, p, 0)].flag == -1 ==>
              !l.ready || p == NULL
  {
    var es := l.entries;
    if p !in live && p == NULL && NeverUsedLeft(es) {
      assert es[|es| - 1].flag == -1 && es[|es| - 1].ptr == NULL;
    }
  }

  /** A call is lost exactly when: memory was handed out and every entry is in
      use, which writes behind the table; or a pointer is released that is neither
      live nor NULL with a never used entry left, which stops the program. */
  lemma LostExactly(l: Ledger, live: map<Ptr, nat>, op: Op)
    requires Tidy(l, live)
    ensures Step(l, op) == Overrun <==>
              && (op.Malloc? || op.StrDup?) && op.p != NULL && l.ready
              && forall i :: 0 <= i < |l.entries| ==> l.entries[i].flag == 1
    ensures Step(l, op) == Aborted <==> op.Free? && op.p !in live && !(op.p == NULL && NeverUsedLeft(l.entries))
  {
    BlankIsTidy();
    if op.Free? {
      FreeIsFound(l, live, op.p);
    }
    if SlotFrom(l.entries, 0) == |l.entries| {
      assert l.entries[0].flag == 1;
    }
  }

  /** The total drifts from the sum of the entries exactly when the allocator had
      no room for a request that was not empty, or the size does not fit an int. */
  lemma MallocDriftsExactly(l: Ledger, live: map<Ptr, nat>, size: nat, p: Ptr)
    requires Tidy(l, live) && p !in live && Step(l, Malloc(size, p)).Next?
    ensures var l' := Step(l, Malloc(size, p)).ledger;
            l'.cur == Total(l'.entries) <==> if p == NULL then size == 0 else size < 0x8000_0000
  {
    OpenedIsTidy(l, live);
    IntHolds(size);
    if p != NULL {
      RecordedTotal(Opened(l).(cur := l.cur + size, max := Higher(l.cur + size, l.max)), p, Int32(size));
    }
  }

  lemma IntHolds(size: nat)
    ensures Int32(size) == size <==> size < 0x8000_0000
  {
  }

  lemma RecordedTotal(l: Ledger, p: Ptr, size: int)
    requires Recorded(l, p, size).Next?
    ensures Total(Recorded(l, p, size).ledger.entries) == Total(l.entries) + size
  {
    TotalUpdate(l.entries, SlotFrom(l.entries, 0), Entry(1, p, size, l.level));
  }

  // A copy before the first allocation goes into the first slot.
  lemma EarlyCopy(l: Ledger, live: map<Ptr, nat>, len: nat, p: Ptr)
    requires Tidy(l, live) && !l.ready && p != NULL && len < 0x8000_0000
    ensures Step(l, StrDup(len, p)).Next?
    ensures var l1 := Step(l, StrDup(len, p)).ledger; !l1.ready && l1.level == l.level && l1.cur == len
  {
    TotalOfUnused(l.entries);
    IntHolds(len);
  }

  function FirstEntry(q: Ptr, size: nat, level: int): seq<Entry> { Blank()[0 := Entry(1, q, size, level)] }

  lemma FirstMalloc(l: Ledger, size: nat, q: Ptr)
    requires !l.ready && q != NULL && size < 0x8000_0000
    ensures Step(l, Malloc(size, q)).Next?
    ensures Step(l, Malloc(size, q)).ledger.entries == FirstEntry(q, size, l.level)
    ensures Step(l, Malloc(size, q)).ledger.cur == l.cur + size
  {
    BlankIsTidy();
    IntHolds(size);
  }

  /** A string copied before the first allocation is forgotten by it: its bytes
      stay in the total for good and releasing it stops the program. */
  lemma EarlyCopyIsForgotten(l: Ledger, live: map<Ptr, nat>, len: nat, p: Ptr, size: nat, q: Ptr)
    requires Tidy(l, live) && !l.ready && p != NULL && q != NULL && p != q && len < 0x8000_0000 && size < 0x8000_0000
    ensures Step(l, StrDup(len, p)).Next?
    ensures var l1 := Step(l, StrDup(len, p)).ledger;
            Step(l1, Malloc(size, q)).Next? &&
            var l2 := Step(l1, Malloc(size, q)).ledger;
            l2.cur == Total(l2.entries) + len && Step(l2, Free(p)) == Aborted
  {
    EarlyCopy(l, live, len, p);
    var l1 := Step(l, StrDup(len, p)).ledger;
    FirstMalloc(l1, size, q);
    BlankIsTidy();
    RecordKeepsTidy(Blank(), map[], q, size, l.level);
    assert forall j :: 0 <= j < |FirstEntry(q, size, l.level)| ==>
      FirstEntry(q, size, l.level)[j].flag == 0 || FirstEntry(q, size, l.level)[j].ptr != p;
  }

  // ---------- runs ----------

  ghost predicate IsRun(ls: seq<Ledger>, lives: seq<map<Ptr, nat>>, ops: seq<Op>)
  {
    && |ls| == |lives| == |ops| + 1
    && forall k :: 0 <= k < |ops| ==>
         && Clean(ls[k], lives[k], ops[k])
         && Step(ls[k], ops[k]) == Next(ls[k + 1])
         && lives[k + 1] == LiveAfter(lives[k], ops[k])
  }

  predicate Reached(ls: seq<Ledger>, k: int, total: int) { 0 <= k < |ls| && ls[k].cur == total }

  // The statics as the program starts.
  predicate IsStart(l: Ledger)
  {
    && |l.entries| == MAX_CHECK_MALLOC_FREE && (forall i :: 0 <= i < |l.entries| ==> l.entries[i] == ZERO)
    && !l.ready && l.level == 0 && l.cur == 0 && l.max == 0
  }

  lemma {:induction false} RunStaysTidy(ls: seq<Ledger>, lives: seq<map<Ptr, nat>>, ops: seq<Op>, n: nat)
    requires IsRun(ls, lives, ops) && IsStart(ls[0]) && lives[0] == map[] && n < |ls|
    ensures Tidy(ls[n], lives[n])
    ensures n > 0 ==> ls[n].max == Higher(ls[n].cur, ls[n - 1].max)
  {
    if n == 0 {
      TotalOfUnused(ls[0].entries);
    } else {
      RunStaysTidy(ls, lives, ops, n - 1);
      var l, op := ls[n - 1], ops[n - 1];
      StepKeepsTidy(l, lives[n - 1], op);
      assert Step(l, op).ledger == ls[n];
    }
  }

  /** Over every clean run from the start: the ledger mirrors the live blocks, the
      current total is the sum of their sizes, and the highest total is exactly
      the largest current total the run has reached. */
  lemma {:induction false} RunConserves(ls: seq<Ledger>, lives: seq<map<Ptr, nat>>, ops: seq<Op>, n: nat)
    requires IsRun(ls, lives, ops) && IsStart(ls[0]) && lives[0] == map[] && n < |ls|
    ensures Tidy(ls[n], lives[n])
    ensures IsTop(ls, n, ls[n].max)
  {
    RunStaysTidy(ls, lives, ops, n);
    if n == 0 {
      assert Reached(ls, 0, 0);
    } else {
      RunConserves(ls, lives, ops, n - 1);
      MaxIsReached(ls, n, ls[n - 1].max);
    }
  }

  // The largest current total of the ledgers up to the n-th.
  ghost predicate IsTop(ls: seq<Ledger>, n: nat, top: int)
    requires n < |ls|
  {
    (forall k :: 0 <= k <= n ==> ls[k].cur <= top) && exists k :: k <= n && Reached(ls, k, top)
  }

  lemma MaxIsReached(ls: seq<Ledger>, n: nat, top: int)
    requires 0 < n < |ls| && ls[n].max == Higher(ls[n].cur, top) && IsTop(ls, n - 1, top)
    ensures IsTop(ls, n, ls[n].max)
  {
    if ls[n].max == top {
      var k :| k <= n - 1 && Reached(ls, k, top);
      assert k <= n && Reached(ls, k, ls[n].max);
    } else {
      assert Reached(ls, n, ls[n].max);
    }
  }

  // ---------- the tables ----------

  class HeapLedger {
    const table: array<Entry>
    var gFlag: int
    var gLevel: int
    var cur: int
    var max: int

    constructor ()
      ensures fresh(table) && Valid() && IsStart(Value())
    {
      table := new Entry[MAX_CHECK_MALLOC_FREE](_ => ZERO);
      gFlag, gLevel, cur, max := 0, 0, 0, 0;
    }

    predicate Valid()
    {
      table.Length == MAX_CHECK_MALLOC_FREE
    }

    ghost function Value(): Ledger
      reads this, table
    {
      Ledger(table[..], gFlag != 0, gLevel, cur, max)
    }

    method UpLevelMallocFree()
      modifies this`gLevel
      ensures Step(old(Value()), UpLevel) == Next(Value())
    {
      gLevel := gLevel + 1;
    }

    method FindSlot() returns (i: nat)
      ensures i == SlotFrom(table[..], 0)
    {
      i := 0;
      while i < table.Length
        invariant i <= table.Length && SlotFrom(table[..], 0) == SlotFrom(table[..], i)
      {
        if table[i].flag == -1 {
          break;
        }
        if table[i].flag == 0 {
          break;
        }
        i := i + 1;
      }
    }

    method Initialize()
      requires Valid()
      modifies this`gFlag, table
      ensures table[..] == Blank() && gFlag == 1
    {
      gFlag := 1;
      var i := 0;
      while i < MAX_CHECK_MALLOC_FREE
        invariant 0 <= i <= table.Length && gFlag == 1
        invariant forall j :: 0 <= j < i ==> table[j] == NEVER
      {
        table[i] := NEVER;
        i := i + 1;
      }
    }

    /** Record a block; false when there is no entry left, where the source writes
        behind the table. */
    method Record(p: Ptr, size: int) returns (ok: bool)
      requires Valid()
      modifies table
      ensures Recorded(old(Value()), p, size) == if ok then Next(Value()) else Overrun
      ensures !ok ==> table[..] == old(table[..])
    {
      var i := FindSlot();
      if i == table.Length {
        return false;
      }
      table[i] := Entry(1, p, size, gLevel);
      ok := true;
    }

    /** sc_malloc, with p the answer of the underlying allocator. */
    method Allocate(size: nat, p: Ptr) returns (ok: bool)
      requires Valid()
      modifies this, table
      ensures Step(old(Value()), Malloc(size, p)) == if ok then Next(Value()) else Overrun
    {
      cur := cur + size;
      if cur > max {
        max := cur;
      }
      if gFlag == 0 {
        Initialize();
      }
      ok := true;
      if p != NULL {
        ok := Record(p, Int32(size));
      }
    }

    /** sc_strdup of a string of length len. */
    method Duplicate(len: nat, p: Ptr) returns (ok: bool)
      requires Valid()
      modifies this, table
      ensures Step(old(Value()), StrDup(len, p)) == if ok then Next(Value()) else Overrun
    {
      ok := true;
      if p != NULL {
        ok := Record(p, Int32(len));
        cur := cur + Int32(len);
        if cur > max {
          max := cur;
        }
      }
    }

    /** sc_free; false when the pointer is not found, where the source stops. */
    method Release(p: Ptr) returns (ok: bool)
      requires Valid()
      modifies this`cur, table
      ensures Step(old(Value()), Free(p)) == if ok then Next(Value()) else Aborted
    {
      var i := 0;
      while i < table.Length
        invariant 0 <= i <= table.Length && table[..] == old(table[..]) && cur == old(cur)
        invariant FindFrom(table[..], p, 0) == FindFrom(table[..], p, i)
      {
        if table[i].flag != 0 && table[i].ptr == p {
          cur := cur - table[i].size;
          table[i] := table[i].(flag := 0, ptr := NULL);
          return true;
        }
        i := i + 1;
      }
      ok := false;
    }

    /** What is printed: the entries in use of at least a level. The walk stops at
        the first never used entry, and misses nothing by that on a shaped table. */
    method Print(level: int) returns (out: seq<Entry>)
      requires Valid()
      ensures out == InUse(Printed(table[..]), if level == -1 then gLevel else level)
      ensures Shaped(table[..]) ==> out == InUse(table[..], if level == -1 then gLevel else level)
    {
      var least := if level == -1 then gLevel else level;
      out := [];
      var i := 0;
      while i < table.Length
        invariant 0 <= i <= table.Length && out == InUse(table[..i], least)
        invariant forall j :: 0 <= j < i ==> table[j].flag != -1
      {
        if table[i].flag == -1 {
          break;
        }
        assert table[..i + 1][..i] == table[..i];
        if table[i].flag != 0 && table[i].level >= least {
          out := out + [table[i]];
        }
        i := i + 1;
      }
      PrintedUpTo(table[..], i);
      assert table[..][..i] == table[..i];
      if Shaped(table[..]) {
        PrintedIsAll(table[..], least, i);
      }
    }
  }

  // On a shaped table the first never used entry hides nothing.
  lemma PrintedIsAll(es: seq<Entry>, least: int, i: nat)
    requires Shaped(es) && i <= |es| && (i < |es| ==> es[i].flag == -1)
    ensures InUse(es[..i], least) == InUse(es, least)
  {
    assert forall j :: i <= j < |es| ==> es[j].flag == -1;
    NothingBehind(es, i, least);
  }

  lemma {:induction false} PrintedUpTo(es: seq<Entry>, i: nat)
    requires i <= |es| && (forall j :: 0 <= j < i ==> es[j].flag != -1) && (i < |es| ==> es[i].flag == -1)
    ensures Printed(es) == es[..i]
  {
    if i > 0 {
      PrintedUpTo(es[1..], i - 1);
      assert es[..i] == [es[0]] + es[1..][..i - 1];
    }
  }

  // The part of the table before the first never used entry.
  function Printed(es: seq<Entry>): seq<Entry>
  {
    if es == [] || es[0].flag == -1 then [] else [es[0]] + Printed(es[1..])
  }

  function InUse(es: seq<Entry>, least: int): seq<Entry>
  {
    if es == [] then []
    else
      var e := es[|es| - 1];
      InUse(es[..|es| - 1], least) + if e.flag != 0 && e.flag != -1 && e.level >= least then [e] else []
  }

  lemma {:induction false} NothingBehind(es: seq<Entry>, i: nat, least: int)
    requires i <= |es| && forall j :: i <= j < |es| ==> es[j].flag == -1
    ensures InUse(es, least) == InUse(es[..i], least)
    decreases |es|
  {
    if i < |es| {
      NothingBehind(es[..|es| - 1], i, least);
      assert es[..|es| - 1][..i] == es[..i];
    } else {
      assert es[..i] == es;
    }
  }
}
