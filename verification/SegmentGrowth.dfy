/**
  Growing the database by whole segments. Free data pages and free index pages
  hang on two linked lists; a growth call walks to the tail of each and links
  the pages of new segments behind it. Data segments are numbered upwards from
  0, index segments downwards from the top, temporary segments in between.
*/
module SegmentGrowth {

  const SEGMENT_NO: nat := 8192
  const PAGE_PER_SEGMENT: nat := 2
  const TEMPSEG_BASE_NO: nat := SEGMENT_NO / 3 / 8 * 8 + 1
  const TEMPSEG_END_NO: nat := SEGMENT_NO * 2 / 3 / 8 * 8 - 1

  const DB_E_INVALIDPARAM := -3
  const DB_E_LIMITDBSIZE := -23
  const DB_E_OIDPOINTER := -124
  const DB_E_LIMITSIZE := -174
  const DB_E_IDXSEGALLOCFAILL := -175
  const DB_E_SEGALLOCFAIL := -217
  const DB_E_OUTOFDBMEMORY := -125
  const DB_E_FIXEDDBSIZE := -350
  const DB_FAIL := -1

  // Segment and place in it, as packed into one word; all zero is also NULL.
  datatype PageId = PageId(sn: nat, pn: nat)

  const NULL_PID: PageId := PageId(0, 0)

  function PageAt(sn: nat, pn: nat): PageId { PageId(sn, pn) }

  function SegmentOf(id: PageId): nat { id.sn }

  datatype Page = Page(next: PageId, prev: PageId)

  // The counters of the memory anchor. A grant is the answer of memory, disk
  // and log to one attempt to obtain a segment.
  datatype Anchor = Anchor(segments: nat, tsegments: nat, isegments: nat, fixed: bool, maxSegments: nat,
                           grants: seq<bool>)
  {
    function Total(): nat { segments + tsegments + isegments }

    predicate Occupied(sn: nat) {
      sn < segments || TEMPSEG_BASE_NO <= sn < TEMPSEG_BASE_NO + tsegments || SEGMENT_NO <= sn + isegments
    }

    predicate Granted() { grants != [] && grants[0] }

    function Asked(): Anchor { if grants == [] then this else this.(grants := grants[1..]) }

    predicate Sound() {
      && 1 <= segments
      && segments + isegments <= SEGMENT_NO
      && TEMPSEG_END_NO < SEGMENT_NO - isegments
      && TEMPSEG_BASE_NO + tsegments <= TEMPSEG_END_NO + 1
      && (TEMPSEG_BASE_NO < segments ==> tsegments == 0)
    }
  }

  // ---------- the pages of a run of segments ----------

  function SegmentPages(sn: nat, n: nat): seq<PageId>
  {
    if n == 0 then [] else SegmentPages(sn, n - 1) + [PageAt(sn, n - 1)]
  }

  function WholeSegment(sn: nat): seq<PageId> { SegmentPages(sn, PAGE_PER_SEGMENT) }

  function DataPages(first: nat, n: nat): seq<PageId>
  {
    if n == 0 then [] else DataPages(first, n - 1) + WholeSegment(first + n - 1)
  }

  function IndexPages(taken: nat, n: nat): seq<PageId>
  {
    if n == 0 || taken + n > SEGMENT_NO then [] else IndexPages(taken, n - 1) + WholeSegment(SEGMENT_NO - taken - n)
  }

  lemma WholeSegmentIs(sn: nat)
    ensures WholeSegment(sn) == [PageAt(sn, 0), PageAt(sn, 1)]
    ensures SegmentOf(PageAt(sn, 0)) == sn && SegmentOf(PageAt(sn, 1)) == sn
  {
    assert SegmentPages(sn, 1) == [PageAt(sn, 0)];
  }

  /** Consecutive runs of data segments are one longer run. */
  lemma {:induction false} DataPagesJoin(first: nat, m: nat, n: nat)
    ensures DataPages(first, m) + DataPages(first + m, n) == DataPages(first, m + n)
  {
    if n == 0 {
      assert DataPages(first + m, 0) == [];
    } else {
      DataPagesJoin(first, m, n - 1);
      var last := WholeSegment(first + m + n - 1);
      assert DataPages(first, m) + (DataPages(first + m, n - 1) + last)
          == (DataPages(first, m) + DataPages(first + m, n - 1)) + last;
    }
  }

  lemma DataPagesNext(first: nat, n: nat)
    ensures DataPages(first, n + 1) == DataPages(first, n) + WholeSegment(first + n)
  {
  }

  lemma GrownTwice(d0: seq<PageId>, d1: seq<PageId>, d2: seq<PageId>, s0: nat, first: nat, gained: nat)
    requires first <= gained && d1 == d0 + DataPages(s0, first) && d2 == d1 + DataPages(s0 + first, gained - first)
    ensures d2 == d0 + DataPages(s0, gained)
  {
    TwoRuns(d0, s0, first, gained - first);
  }

  lemma IndexPagesNext(list: seq<PageId>, taken: nat, n: nat)
    requires taken + n < SEGMENT_NO
    ensures list + IndexPages(taken, n) + WholeSegment(SEGMENT_NO - 1 - (taken + n)) == list + IndexPages(taken, n + 1)
  {
  }

  lemma TwoRuns(list: seq<PageId>, first: nat, m: nat, n: nat)
    ensures list + DataPages(first, m) + DataPages(first + m, n) == list + DataPages(first, m + n)
  {
    DataPagesJoin(first, m, n);
  }

  lemma {:induction false} DataPagesLength(first: nat, n: nat)
    ensures |DataPages(first, n)| == 2 * n
  {
    if n > 0 {
      WholeSegmentIs(first + n - 1);
      DataPagesLength(first, n - 1);
    }
  }

  /** A run of n data segments has two pages each: segment m of it contributes
      pages 2m and 2m + 1, in the order of their places. */
  lemma {:induction false} DataPagesAt(first: nat, n: nat, m: nat)
    requires m < n
    ensures |DataPages(first, n)| == 2 * n
    ensures DataPages(first, n)[2 * m] == PageAt(first + m, 0)
    ensures DataPages(first, n)[2 * m + 1] == PageAt(first + m, 1)
  {
    DataPagesLength(first, n);
    DataPagesLength(first, n - 1);
    WholeSegmentIs(first + n - 1);
    if m < n - 1 {
      DataPagesAt(first, n - 1, m);
    }
  }

  // ---------- linked lists of pages ----------

  // `list` is the chain of pages hanging on `head`, all in segments low..high.
  ghost predicate IsList(pages: map<PageId, Page>, head: PageId, list: seq<PageId>, low: nat, high: nat)
    decreases |list|
  {
    if list == [] then head == NULL_PID
    else
      && head == list[0] != NULL_PID && head in pages && low <= SegmentOf(head) < high
      && IsList(pages, pages[head].next, list[1..], low, high)
  }

  // Each page of `list` points back to the one before it, the first one to `before`.
  ghost predicate BackLinked(pages: map<PageId, Page>, before: PageId, list: seq<PageId>)
    decreases |list|
  {
    list == [] || (list[0] in pages && pages[list[0]].prev == before && BackLinked(pages, list[0], list[1..]))
  }

  // The list says nothing about what its first page points back to.
  ghost predicate BothWays(pages: map<PageId, Page>, list: seq<PageId>)
  {
    list == [] || BackLinked(pages, list[0], list[1..])
  }

  /** A list is determined by its head and the links: two lists from one head agree. */
  lemma {:induction false} ListsAgree(pages: map<PageId, Page>, head: PageId, a: seq<PageId>, b: seq<PageId>,
                                      low: nat, high: nat)
    requires IsList(pages, head, a, low, high) && IsList(pages, head, b, low, high)
    ensures a == b
    decreases |a|
  {
    if a != [] && b != [] {
      ListsAgree(pages, pages[head].next, a[1..], b[1..], low, high);
      assert a == [a[0]] + a[1..] && b == [b[0]] + b[1..];
    }
  }

  lemma {:induction false} SuffixIsList(pages: map<PageId, Page>, head: PageId, list: seq<PageId>, low: nat,
                                        high: nat, j: nat)
    requires IsList(pages, head, list, low, high) && j < |list|
    ensures IsList(pages, list[j], list[j..], low, high)
    ensures list[j] != NULL_PID && low <= SegmentOf(list[j]) < high && list[j] in pages
    decreases |list|
  {
    if j > 0 {
      SuffixIsList(pages, pages[head].next, list[1..], low, high, j - 1);
      assert list[1..][j - 1..] == list[j..];
    } else {
      assert list[0..] == list;
    }
  }

  /** A list that ends has no cycle: its pages are all different. */
  lemma {:induction false} NoPageTwice(pages: map<PageId, Page>, head: PageId, list: seq<PageId>, low: nat, high: nat,
                                       i: nat, j: nat)
    requires IsList(pages, head, list, low, high) && i < j < |list|
    ensures list[i] != list[j]
  {
    SuffixIsList(pages, head, list, low, high, i);
    SuffixIsList(pages, head, list, low, high, j);
    if list[i] == list[j] {
      ListsAgree(pages, list[i], list[i..], list[j..], low, high);
    }
  }

  lemma {:induction false} FrameKeepsList(pages: map<PageId, Page>, pages': map<PageId, Page>, head: PageId,
                                          list: seq<PageId>, low: nat, high: nat)
    requires IsList(pages, head, list, low, high)
    requires forall q :: q in pages && low <= SegmentOf(q) < high ==> q in pages' && pages'[q] == pages[q]
    ensures IsList(pages', head, list, low, high)
    ensures BothWays(pages, list) ==> BothWays(pages', list)
    decreases |list|
  {
    if list != [] {
      FrameKeepsList(pages, pages', pages[head].next, list[1..], low, high);
      if |list| > 1 {
        assert list[1] in pages && low <= SegmentOf(list[1]) < high;
      }
    }
  }

  // The pages after one segment was written behind `tail` (or alone, when there is none).
  function Formatted(pages: map<PageId, Page>, sn: nat, before: PageId, n: nat): map<PageId, Page>
    requires n <= PAGE_PER_SEGMENT
  {
    if n == 0 then pages
    else Formatted(pages, sn, before, n - 1)[PageAt(sn, n - 1) := NewPage(sn, n - 1, before)]
  }

  function NewPage(sn: nat, pn: nat, before: PageId): Page
    requires pn < PAGE_PER_SEGMENT
  {
    Page(if pn == PAGE_PER_SEGMENT - 1 then NULL_PID else PageAt(sn, pn + 1),
         if pn == 0 then before else PageAt(sn, pn - 1))
  }

  function Linked(pages: map<PageId, Page>, sn: nat, tail: PageId): map<PageId, Page>
  {
    var p := Formatted(pages, sn, tail, PAGE_PER_SEGMENT);
    if tail == NULL_PID || tail !in p then p else p[tail := p[tail].(next := PageAt(sn, 0))]
  }

  function Last(list: seq<PageId>): PageId { if list == [] then NULL_PID else list[|list| - 1] }

  lemma FormattedIs(pages: map<PageId, Page>, sn: nat, before: PageId)
    ensures Formatted(pages, sn, before, PAGE_PER_SEGMENT)
         == pages[PageAt(sn, 0) := Page(PageAt(sn, 1), before)][PageAt(sn, 1) := Page(NULL_PID, PageAt(sn, 0))]
  {
    assert Formatted(pages, sn, before, 1) == pages[PageAt(sn, 0) := Page(PageAt(sn, 1), before)];
  }

  lemma LinkedIs(pages: map<PageId, Page>, sn: nat, tail: PageId)
    requires tail in pages && SegmentOf(tail) != sn
    ensures var p := Linked(pages, sn, tail);
            && (forall q :: q in pages && SegmentOf(q) != sn && q != tail ==> q in p && p[q] == pages[q])
            && tail in p && p[tail] == (if tail == NULL_PID then pages[tail] else Page(PageAt(sn, 0), pages[tail].prev))
  {
    FormattedIs(pages, sn, tail);
    WholeSegmentIs(sn);
  }

  lemma LinkedFrame(pages: map<PageId, Page>, sn: nat, tail: PageId)
    ensures forall q :: q in pages && SegmentOf(q) != sn && q != tail ==>
              q in Linked(pages, sn, tail) && Linked(pages, sn, tail)[q] == pages[q]
  {
    WholeSegmentIs(sn);
    FormattedIs(pages, sn, tail);
  }

  lemma NewSegmentIsList(pages: map<PageId, Page>, sn: nat, tail: PageId, low: nat, high: nat)
    requires low <= sn < high && sn > 0
    requires tail != NULL_PID ==> SegmentOf(tail) != sn
    ensures var p := Linked(pages, sn, tail);
            && IsList(p, PageAt(sn, 0), WholeSegment(sn), low, high)
            && BackLinked(p, tail, WholeSegment(sn))
  {
    WholeSegmentIs(sn);
    FormattedIs(pages, sn, tail);
    var p := Linked(pages, sn, tail);
    var s := WholeSegment(sn);
    assert s[1..] == [PageAt(sn, 1)] && s[1..][1..] == [];
    assert p[PageAt(sn, 0)] == Page(PageAt(sn, 1), tail);
    assert p[PageAt(sn, 1)] == Page(NULL_PID, PageAt(sn, 0));
    assert IsList(p, NULL_PID, [], low, high);
    assert IsList(p, PageAt(sn, 1), s[1..], low, high);
  }

  /** Writing segment sn behind the tail of a suffix appends exactly its pages, in order. */
  lemma {:induction false} SuffixAppends(pages: map<PageId, Page>, head: PageId, list: seq<PageId>, low: nat, high: nat,
                                         low': nat, high': nat, sn: nat)
    requires IsList(pages, head, list, low, high) && list != [] && sn > 0
    requires low' <= low && high <= high' && low' <= sn < high' && !(low <= sn < high)
    ensures IsList(Linked(pages, sn, Last(list)), head, list + WholeSegment(sn), low', high')
    ensures BothWays(pages, list) ==> BothWays(Linked(pages, sn, Last(list)), list + WholeSegment(sn))
    decreases |list|
  {
    var tail := Last(list);
    var p := Linked(pages, sn, tail);
    var all := list + WholeSegment(sn);
    SuffixIsList(pages, head, list, low, high, |list| - 1);
    LinkedIs(pages, sn, tail);
    assert all[1..] == list[1..] + WholeSegment(sn);
    if |list| == 1 {
      NewSegmentIsList(pages, sn, tail, low', high');
      assert all[1..] == WholeSegment(sn);
    } else {
      SuffixAppends(pages, pages[head].next, list[1..], low, high, low', high', sn);
      NoPageTwice(pages, head, list, low, high, 0, |list| - 1);
      assert Last(list[1..]) == tail;
      assert p[head] == pages[head];
      assert p[list[1]].prev == pages[list[1]].prev;
      assert all[1..][0] == list[1];
    }
  }

  /** Writing segment sn behind the tail of a list, or alone when there is none. */
  lemma LinkedAppends(pages: map<PageId, Page>, head: PageId, list: seq<PageId>, low: nat, high: nat,
                      low': nat, high': nat, sn: nat)
    requires IsList(pages, head, list, low, high) && sn > 0
    requires low' <= low && high <= high' && low' <= sn < high' && !(low <= sn < high)
    ensures IsList(Linked(pages, sn, Last(list)), if list == [] then PageAt(sn, 0) else head,
                   list + WholeSegment(sn), low', high')
    ensures BothWays(pages, list) ==> BothWays(Linked(pages, sn, Last(list)), list + WholeSegment(sn))
    ensures Last(list + WholeSegment(sn)) == PageAt(sn, PAGE_PER_SEGMENT - 1)
  {
    WholeSegmentIs(sn);
    if list == [] {
      NewSegmentIsList(pages, sn, NULL_PID, low', high');
      assert list + WholeSegment(sn) == WholeSegment(sn);
    } else {
      SuffixAppends(pages, head, list, low, high, low', high', sn);
    }
  }

  // ---------- the state of the space, on values ----------

  type SoundAnchor = a: Anchor | a.Sound() witness Anchor(1, 0, 0, false, 0, [])

  ghost predicate Good(a: SoundAnchor, pages: map<PageId, Page>, lost: set<PageId>, firstFree: PageId,
                       ifirstFree: PageId, data: seq<PageId>, index: seq<PageId>)
  {
    && IsList(pages, firstFree, data, 0, a.segments)
    && IsList(pages, ifirstFree, index, SEGMENT_NO - a.isegments, SEGMENT_NO)
    && (forall q :: q in lost ==> SegmentOf(q) < a.segments || SEGMENT_NO - a.isegments <= SegmentOf(q))
  }

  /** Linking in the next data segment keeps both lists. */
  lemma DataSegmentKeeps(a: SoundAnchor, pages: map<PageId, Page>, lost: set<PageId>, firstFree: PageId,
                         ifirstFree: PageId, data: seq<PageId>, index: seq<PageId>, a': SoundAnchor,
                         p: map<PageId, Page>)
    requires Good(a, pages, lost, firstFree, ifirstFree, data, index)
    requires a'.isegments == a.isegments && a'.segments == a.segments + 1
    requires p == Linked(pages, a.segments, Last(data))
    ensures Good(a', p, lost, if data == [] then PageAt(a.segments, 0) else firstFree, ifirstFree,
                 data + WholeSegment(a.segments), index)
    ensures Last(data + WholeSegment(a.segments)) == PageAt(a.segments, PAGE_PER_SEGMENT - 1)
    ensures BothWays(pages, data) ==> BothWays(p, data + WholeSegment(a.segments))
    ensures BothWays(pages, index) ==> BothWays(p, index)
  {
    var sn := a.segments;
    LinkedAppends(pages, firstFree, data, 0, sn, 0, sn + 1, sn);
    LinkedFrame(pages, sn, Last(data));
    if data != [] {
      SuffixIsList(pages, firstFree, data, 0, sn, |data| - 1);
    }
    FrameKeepsList(pages, p, ifirstFree, index, SEGMENT_NO - a.isegments, SEGMENT_NO);
  }

  /** Linking in the next index segment keeps both lists. */
  lemma IndexSegmentKeeps(a: SoundAnchor, pages: map<PageId, Page>, lost: set<PageId>, firstFree: PageId,
                          ifirstFree: PageId, data: seq<PageId>, index: seq<PageId>, a': SoundAnchor, sn: nat,
                          p: map<PageId, Page>)
    requires Good(a, pages, lost, firstFree, ifirstFree, data, index) && index != []
    requires a'.isegments == a.isegments + 1 && a'.segments == a.segments
    requires sn == SEGMENT_NO - 1 - a.isegments && p == Linked(pages, sn, Last(index))
    ensures Good(a', p, lost, firstFree, ifirstFree, data, index + WholeSegment(sn))
    ensures Last(index + WholeSegment(sn)) == PageAt(sn, PAGE_PER_SEGMENT - 1)
    ensures BothWays(pages, data) ==> BothWays(p, data)
    ensures BothWays(pages, index) ==> BothWays(p, index + WholeSegment(sn))
  {
    LinkedAppends(pages, ifirstFree, index, sn + 1, SEGMENT_NO, sn, SEGMENT_NO, sn);
    LinkedFrame(pages, sn, Last(index));
    SuffixIsList(pages, ifirstFree, index, sn + 1, SEGMENT_NO, |index| - 1);
    FrameKeepsList(pages, p, firstFree, data, 0, a.segments);
  }

  // ---------- how far a growth call gets ----------

  predicate DataFits(a: Anchor, tail: PageId)
  {
    && SegmentOf(tail) < TEMPSEG_BASE_NO && a.segments < TEMPSEG_BASE_NO
    && !a.fixed
    && (a.maxSegments == 0 || a.Total() < a.maxSegments)
  }

  predicate FirstFits(a: Anchor)
  {
    && (a.maxSegments == 0 || a.segments + a.isegments < a.maxSegments)
    && a.segments < SEGMENT_NO && !a.Occupied(a.segments)
  }

  predicate IndexFits(a: Anchor)
  {
    && TEMPSEG_END_NO + a.isegments + 1 < SEGMENT_NO
    && (a.maxSegments == 0 || a.segments + a.isegments < a.maxSegments)
    && !a.Occupied(SEGMENT_NO - 1 - a.isegments)
  }

  function MoreData(a: Anchor): Anchor { a.Asked().(segments := a.segments + 1) }

  function MoreIndex(a: Anchor): Anchor { a.Asked().(isegments := a.isegments + 1) }

  // Data segments that n attempts in a row obtain behind `tail`, stopping at the first refusal.
  function DataRun(a: Anchor, tail: PageId, n: nat): (r: nat)
    ensures r <= n
    decreases n
  {
    if n == 0 || !DataFits(a, tail) || !a.Granted() then 0
    else 1 + DataRun(MoreData(a), PageAt(a.segments, PAGE_PER_SEGMENT - 1), n - 1)
  }

  function AfterData(a: Anchor, tail: PageId, n: nat): Anchor
    decreases n
  {
    if n == 0 || !DataFits(a, tail) then a
    else if !a.Granted() then a.Asked()
    else AfterData(MoreData(a), PageAt(a.segments, PAGE_PER_SEGMENT - 1), n - 1)
  }

  function IndexRun(a: Anchor, n: nat): (r: nat)
    ensures r <= n
    decreases n
  {
    if n == 0 || !IndexFits(a) || !a.Granted() then 0 else 1 + IndexRun(MoreIndex(a), n - 1)
  }

  function AfterIndex(a: Anchor, n: nat): Anchor
    decreases n
  {
    if n == 0 || !IndexFits(a) then a
    else if !a.Granted() then a.Asked()
    else AfterIndex(MoreIndex(a), n - 1)
  }

  predicate AllGranted(grants: seq<bool>, n: nat)
  {
    n <= |grants| && forall k :: 0 <= k < n ==> grants[k]
  }

  /** A run of data segments is complete exactly when they all stay below the
      temporary range, the size is not frozen, the total stays within the
      configured maximum and every resource is granted. The limit that bites is
      the bottom of the temporary range, a third of SEGMENT_NO. */
  lemma {:induction false} DataRunComplete(a: Anchor, tail: PageId, n: nat)
    requires n > 0
    ensures DataRun(a, tail, n) == n <==>
            (&& SegmentOf(tail) < TEMPSEG_BASE_NO
             && a.segments + n <= TEMPSEG_BASE_NO
             && !a.fixed
             && (a.maxSegments == 0 || a.Total() + n <= a.maxSegments)
             && AllGranted(a.grants, n))
    decreases n
  {
    if DataFits(a, tail) && a.Granted() {
      var b := MoreData(a);
      assert b.grants == a.grants[1..];
      if n > 1 {
        assert SegmentOf(PageAt(a.segments, PAGE_PER_SEGMENT - 1)) == a.segments;
        DataRunComplete(b, PageAt(a.segments, PAGE_PER_SEGMENT - 1), n - 1);
        assert AllGranted(a.grants, n) <==> AllGranted(b.grants, n - 1) by { GrantsShift(a.grants, n); }
        assert DataRun(a, tail, n) == 1 + DataRun(b, PageAt(a.segments, PAGE_PER_SEGMENT - 1), n - 1);
      } else {
        assert DataRun(b, PageAt(a.segments, PAGE_PER_SEGMENT - 1), 0) == 0;
        assert DataRun(a, tail, 1) == 1;
      }
    } else {
      assert DataRun(a, tail, n) == 0;
    }
  }

  lemma GrantsShift(grants: seq<bool>, n: nat)
    requires n > 1 && grants != [] && grants[0]
    ensures AllGranted(grants, n) <==> AllGranted(grants[1..], n - 1)
  {
    if AllGranted(grants[1..], n - 1) {
      forall k | 0 <= k < n
        ensures grants[k]
      {
        assert k > 0 ==> grants[k] == grants[1..][k - 1];
      }
    }
  }

  /** What a run leaves behind: only the counter of its own kind moves, by the
      number of segments obtained. */
  lemma {:induction false} AfterDataCounts(a: Anchor, tail: PageId, n: nat)
    requires a.Sound()
    ensures AfterData(a, tail, n) ==
              a.(segments := a.segments + DataRun(a, tail, n), grants := AfterData(a, tail, n).grants)
    ensures AfterData(a, tail, n).Sound()
    decreases n
  {
    if n > 0 && DataFits(a, tail) && a.Granted() {
      AfterDataCounts(MoreData(a), PageAt(a.segments, PAGE_PER_SEGMENT - 1), n - 1);
    }
  }

  lemma {:induction false} AfterIndexCounts(a: Anchor, n: nat)
    requires a.Sound()
    ensures AfterIndex(a, n) == a.(isegments := a.isegments + IndexRun(a, n), grants := AfterIndex(a, n).grants)
    ensures AfterIndex(a, n).Sound()
    decreases n
  {
    if n > 0 && IndexFits(a) && a.Granted() {
      AfterIndexCounts(MoreIndex(a), n - 1);
    }
  }

  // k of n segments have been added behind `first`, and the run goes on from here.
  ghost predicate DataSoFar(a0: Anchor, first: PageId, d0: seq<PageId>, n: nat, k: nat, a: Anchor, tail: PageId,
                            d: seq<PageId>)
  {
    && k <= n && d != [] && tail == Last(d)
    && a.segments == a0.segments + k
    && d == d0 + DataPages(a0.segments, k)
    && DataRun(a0, first, n) == k + DataRun(a, tail, n - k)
    && AfterData(a0, first, n) == AfterData(a, tail, n - k)
  }

  lemma DataRunGoesOn(a0: Anchor, first: PageId, d0: seq<PageId>, n: nat, k: nat, a: Anchor, tail: PageId,
                      d: seq<PageId>)
    requires DataSoFar(a0, first, d0, n, k, a, tail, d)
    requires k < n && DataFits(a, tail) && a.Granted()
    ensures DataSoFar(a0, first, d0, n, k + 1, MoreData(a), PageAt(a.segments, PAGE_PER_SEGMENT - 1),
                      d + WholeSegment(a.segments))
  {
    DataPagesNext(a0.segments, k);
    WholeSegmentIs(a.segments);
    assert d0 + DataPages(a0.segments, k) + WholeSegment(a.segments) ==
             d0 + (DataPages(a0.segments, k) + WholeSegment(a.segments));
  }

  lemma DataRunIsOver(a0: Anchor, first: PageId, d0: seq<PageId>, n: nat, a: Anchor, tail: PageId, d: seq<PageId>)
    requires DataSoFar(a0, first, d0, n, n, a, tail, d)
    ensures DataRun(a0, first, n) == n && AfterData(a0, first, n) == a
  {
  }

  lemma DataRunStops(a0: Anchor, first: PageId, d0: seq<PageId>, n: nat, k: nat, a: Anchor, tail: PageId,
                     d: seq<PageId>)
    requires DataSoFar(a0, first, d0, n, k, a, tail, d)
    requires k < n && !(DataFits(a, tail) && a.Granted())
    ensures DataRun(a0, first, n) == k
    ensures AfterData(a0, first, n) == if DataFits(a, tail) then a.Asked() else a
  {
  }

  // The same for index segments.
  ghost predicate IndexSoFar(a0: Anchor, d0: seq<PageId>, n: nat, k: nat, a: Anchor, tail: PageId, d: seq<PageId>)
  {
    && k <= n && d != [] && tail == Last(d)
    && a.isegments == a0.isegments + k
    && d == d0 + IndexPages(a0.isegments, k)
    && IndexRun(a0, n) == k + IndexRun(a, n - k)
    && AfterIndex(a0, n) == AfterIndex(a, n - k)
  }

  lemma IndexRunGoesOn(a0: Anchor, d0: seq<PageId>, n: nat, k: nat, a: Anchor, tail: PageId, d: seq<PageId>)
    requires IndexSoFar(a0, d0, n, k, a, tail, d)
    requires k < n && IndexFits(a) && a.Granted()
    ensures var sn := SEGMENT_NO - 1 - a.isegments;
            IndexSoFar(a0, d0, n, k + 1, MoreIndex(a), PageAt(sn, PAGE_PER_SEGMENT - 1), d + WholeSegment(sn))
  {
    IndexPagesNext(d0, a0.isegments, k);
    WholeSegmentIs(SEGMENT_NO - 1 - a.isegments);
  }

  lemma IndexRunStops(a0: Anchor, d0: seq<PageId>, n: nat, k: nat, a: Anchor, tail: PageId, d: seq<PageId>)
    requires IndexSoFar(a0, d0, n, k, a, tail, d)
    requires k < n && !(IndexFits(a) && a.Granted())
    ensures IndexRun(a0, n) == k
    ensures AfterIndex(a0, n) == if IndexFits(a) then a.Asked() else a
  {
  }

  // The part played by an empty free list: its first segment is obtained by
  // other rules than the rest.
  function FirstGain(a: Anchor, tail: PageId): nat
  {
    if tail == NULL_PID && FirstFits(a) && a.Granted() then 1 else 0
  }

  function AfterFirst(a: Anchor, tail: PageId): Anchor { if FirstGain(a, tail) == 1 then MoreData(a) else a }

  function TailAfterFirst(a: Anchor, tail: PageId): PageId
  {
    if FirstGain(a, tail) == 1 then PageAt(a.segments, PAGE_PER_SEGMENT - 1) else tail
  }

  // The data segments a whole call obtains.
  function DataGain(a: Anchor, tail: PageId, n: int): nat
  {
    var first := FirstGain(a, tail);
    if tail == NULL_PID && first == 0 then 0
    else first + DataRun(AfterFirst(a, tail), TailAfterFirst(a, tail), Positive(n - first))
  }

  // What a whole call does, from the anchor, the tail of the free list and
  // whether the walks can be completed.
  function Growth(a: Anchor, tail: PageId, walkable: bool, n: int, nIdx: int): Outcome
  {
    var first := FirstGain(a, tail);
    if tail == NULL_PID && first == 0 then Outcome(0, 0, 0)
    else Continued(AfterFirst(a, tail), TailAfterFirst(a, tail), walkable, first, n, nIdx)
  }

  function Continued(a: Anchor, tail: PageId, walkable: bool, first: nat, n: int, nIdx: int): Outcome
  {
    if !walkable then Outcome(first, 0, DB_E_OIDPOINTER)
    else
      var gained := first + DataRun(a, tail, Positive(n - first));
      var igained := IndexRun(AfterData(a, tail, Positive(n - first)), Positive(nIdx));
      Outcome(gained, igained, if nIdx > 0 then igained else gained)
  }

  /** A call for n > 0 data segments obtains exactly n, whether the free list was
      empty or not, if and only if: they fit below the temporary range (a lone
      first segment may also take the first number of that range while it is
      unused), the size is not frozen (the first segment of an empty list is not
      subject to that), the maximum holds (the first one not counting temporary
      segments), and n resources are granted. */
  lemma GainComplete(a: Anchor, tail: PageId, n: nat)
    requires a.Sound() && n > 0
    requires tail != NULL_PID ==> SegmentOf(tail) < a.segments
    ensures tail != NULL_PID ==> (DataGain(a, tail, n) == n <==>
            (&& SegmentOf(tail) < TEMPSEG_BASE_NO && a.segments + n <= TEMPSEG_BASE_NO && !a.fixed
             && (a.maxSegments == 0 || a.Total() + n <= a.maxSegments) && AllGranted(a.grants, n)))
    ensures tail == NULL_PID && n > 1 ==> (DataGain(a, tail, n) == n <==>
            (&& a.segments + n <= TEMPSEG_BASE_NO && !a.fixed
             && (a.maxSegments == 0 || a.Total() + n <= a.maxSegments) && AllGranted(a.grants, n)))
    ensures tail == NULL_PID && n == 1 ==> (DataGain(a, tail, n) == 1 <==>
            (&& !a.Occupied(a.segments) && a.Granted()
             && (a.maxSegments == 0 || a.segments + a.isegments < a.maxSegments)))
  {
    if tail != NULL_PID {
      DataRunComplete(a, tail, n);
    } else if n > 1 {
      var b := MoreData(a);
      assert SegmentOf(PageAt(a.segments, PAGE_PER_SEGMENT - 1)) == a.segments;
      DataRunComplete(b, PageAt(a.segments, PAGE_PER_SEGMENT - 1), n - 1);
      if a.Granted() {
        GrantsShift(a.grants, n);
        assert b.grants == a.grants[1..];
      }
    } else {
      assert FirstFits(a) && a.Granted() ==> DataRun(MoreData(a), PageAt(a.segments, PAGE_PER_SEGMENT - 1), 0) == 0;
    }
  }

  lemma GainBound(a: Anchor, tail: PageId, n: int)
    ensures DataGain(a, tail, n) <= if n > 0 then n else 1
  {
  }

  /** An admitted call for n > 0 segments leaves the number of data segments
      below SEGMENT_NO and below the configured maximum. */
  lemma StaysBelowLimits(a: Anchor, tail: PageId, n: int)
    requires n > 0 && Admitted(a, n)
    ensures a.segments + DataGain(a, tail, n) < SEGMENT_NO
    ensures a.maxSegments != 0 ==> a.segments + DataGain(a, tail, n) < a.maxSegments
  {
    GainBound(a, tail, n);
  }

  lemma {:induction false} RunStaysOut(a: Anchor, tail: PageId, n: nat)
    requires a.segments <= TEMPSEG_BASE_NO
    ensures a.segments + DataRun(a, tail, n) <= TEMPSEG_BASE_NO
    decreases n
  {
    if n > 0 && DataFits(a, tail) && a.Granted() {
      RunStaysOut(MoreData(a), PageAt(a.segments, PAGE_PER_SEGMENT - 1), n - 1);
    }
  }

  /** A data segment ends up inside the temporary range exactly when the free
      list is empty, the data range is used up, no temporary segment has been
      taken and the maximum and the resources still allow one: the routine that
      restarts an empty list does not look at the end of the data range. */
  lemma StraysExactly(a: Anchor, tail: PageId, n: int)
    requires a.Sound() && a.segments <= TEMPSEG_BASE_NO
    ensures a.segments + DataGain(a, tail, n) > TEMPSEG_BASE_NO <==>
            (&& tail == NULL_PID && a.segments == TEMPSEG_BASE_NO && a.tsegments == 0 && a.Granted()
             && (a.maxSegments == 0 || a.segments + a.isegments < a.maxSegments))
  {
    var b := AfterFirst(a, tail);
    if b.segments <= TEMPSEG_BASE_NO {
      RunStaysOut(b, TailAfterFirst(a, tail), Positive(n - FirstGain(a, tail)));
    }
  }

  /** The answer of a call that asks for index segments says nothing of the data
      segments. A frozen size shows it: every data segment behind a tail is
      refused, and the answer is still the number of index segments. */
  lemma AnswerHidesShortfall(a: Anchor, tail: PageId, n: int, nIdx: int)
    requires a.fixed && tail != NULL_PID && nIdx > 0
    ensures Growth(a, tail, true, n, nIdx) == Outcome(0, IndexRun(a, nIdx), IndexRun(a, nIdx))
  {
    assert DataRun(a, tail, Positive(n)) == 0 && AfterData(a, tail, Positive(n)) == a;
  }

  // ---------- the database space ----------

  datatype Call = Begin(ok: bool) | Commit | Abort

  class Space {
    var pages: map<PageId, Page>
    var lost: set<PageId>          // pages the buffer manager cannot bring in
    var firstFree: PageId
    var ifirstFree: PageId
    var anchor: SoundAnchor
    var trans: int                 // -1 while no transaction is open
    var startable: int             // the transaction number Trans_Begin would hand out, 0 or less: refused
    var calls: seq<Call>
    var checkpoints: nat
    ghost var data: seq<PageId>
    ghost var index: seq<PageId>

    ghost predicate Valid()
      reads this
    {
      Good(anchor, pages, lost, firstFree, ifirstFree, data, index)
    }

    // The previous links of both lists mirror the next links.
    ghost predicate Doubly()
      reads this
    {
      BothWays(pages, data) && BothWays(pages, index)
    }

    /** Walk a list to its tail. Fails exactly when some page of it cannot be brought in. */
    method WalkToTail(head: PageId, ghost list: seq<PageId>, ghost low: nat, ghost high: nat)
      returns (tail: PageId, ok: bool)
      requires IsList(pages, head, list, low, high)
      ensures ok <==> list != [] && forall q :: q in list ==> q !in lost
      ensures ok ==> tail == Last(list)
    {
      tail, ok := head, false;
      if head == NULL_PID {
        return;
      }
      ghost var seen, rest := [], list;
      while true
        invariant list == seen + rest && rest != [] && IsList(pages, tail, rest, low, high) && !ok
        invariant forall q :: q in seen ==> q !in lost
        decreases |rest|
      {
        if tail in lost {
          assert tail in list;
          return;
        }
        if pages[tail].next == NULL_PID {
          assert rest == [tail] && IsList(pages, NULL_PID, rest[1..], low, high);
          return tail, true;
        }
        seen, rest := seen + [tail], rest[1..];
        tail := pages[tail].next;
      }
    }

    /** Write the headers of a fresh segment and hook it behind the tail. */
    method Format(sn: nat, tail: PageId)
      requires tail != NULL_PID ==> tail in pages && SegmentOf(tail) != sn
      modifies this`pages
      ensures pages == Linked(old(pages), sn, tail)
    {
      var pn := 0;
      while pn < PAGE_PER_SEGMENT
        invariant pn <= PAGE_PER_SEGMENT
        invariant pages == Formatted(old(pages), sn, tail, pn)
      {
        pages := pages[PageAt(sn, pn) := NewPage(sn, pn, tail)];
        pn := pn + 1;
      }
      if tail != NULL_PID {
        FormattedIs(old(pages), sn, tail);
        WholeSegmentIs(sn);
        pages := pages[tail := pages[tail].(next := PageAt(sn, 0))];
      }
    }

    // First free segment of an empty list. Neither the frozen size nor the
    // temporary segments count here.
    method CheckFreeSegment() returns (ret: int)
      requires Valid() && data == []
      modifies this`pages, this`firstFree, this`anchor, this`data
      ensures Valid()
      ensures ret <= 0 && (ret == 0 <==> FirstFits(old(anchor)) && old(anchor).Granted())
      ensures ret == 0 ==> data == WholeSegment(old(anchor.segments)) && anchor == MoreData(old(anchor))
      ensures ret == 0 ==> Last(data) == PageAt(old(anchor.segments), PAGE_PER_SEGMENT - 1)
      ensures ret != 0 ==> data == [] && pages == old(pages)
      ensures ret != 0 ==> anchor == old(if FirstFits(anchor) then anchor.Asked() else anchor)
      ensures old(Doubly()) ==> Doubly()
    {
      if anchor.maxSegments != 0 && anchor.segments + anchor.isegments >= anchor.maxSegments {
        ret := DB_E_LIMITSIZE;
      } else if anchor.segments >= SEGMENT_NO || anchor.Occupied(anchor.segments) {
        ret := DB_E_SEGALLOCFAIL;
      } else {
        var granted := Obtain();
        if granted {
          HookData(anchor.segments, NULL_PID);
        }
        ret := if granted then 0 else DB_E_OUTOFDBMEMORY;
      }
    }

    // Ask memory, disk and log for room for one segment.
    method Obtain() returns (granted: bool)
      requires Valid()
      modifies this`anchor
      ensures Valid()
      ensures granted == old(anchor).Granted() && anchor == old(anchor).Asked()
    {
      granted := anchor.Granted();
      anchor := anchor.Asked();
    }

    method HookData(sn: nat, pageid: PageId)
      requires Valid() && sn == anchor.segments && pageid == Last(data)
      requires sn + anchor.isegments < SEGMENT_NO && (TEMPSEG_BASE_NO <= sn ==> anchor.tsegments == 0)
      modifies this`pages, this`firstFree, this`anchor, this`data
      ensures Valid()
      ensures data == old(data) + WholeSegment(sn) && anchor == old(anchor).(segments := sn + 1)
      ensures firstFree == (if old(data) == [] then PageAt(sn, 0) else old(firstFree))
      ensures Last(data) == PageAt(sn, PAGE_PER_SEGMENT - 1)
      ensures old(Doubly()) ==> Doubly()
    {
      var a' := anchor.(segments := sn + 1);
      if data != [] {
        SuffixIsList(pages, firstFree, data, 0, sn, |data| - 1);
      }
      Format(sn, pageid);
      DataSegmentKeeps(anchor, old(pages), lost, firstFree, ifirstFree, data, index, a', pages);
      var head := if pageid == NULL_PID then PageAt(sn, 0) else firstFree;
      assert Good(a', pages, lost, head, ifirstFree, data + WholeSegment(sn), index);
      firstFree, data, anchor := head, data + WholeSegment(sn), a';
    }

    // The limits on one more data segment behind page pageid, in the order they are looked at.
    method DataRoom(pageid: PageId) returns (sn: nat, ret: int)
      requires SegmentOf(pageid) < anchor.segments
      ensures ret <= 0 && (ret == 0 <==> DataFits(anchor, pageid))
      ensures ret == 0 ==> sn == anchor.segments
    {
      sn := 0;
      var isTemp := false;
      if SegmentOf(pageid) < TEMPSEG_BASE_NO {
        sn := anchor.segments;
        if sn >= TEMPSEG_BASE_NO {
          return sn, DB_E_LIMITSIZE;
        }
      } else if SegmentOf(pageid) <= TEMPSEG_END_NO {
        // a tail that has strayed into the temporary range
        isTemp := true;
        sn := TEMPSEG_BASE_NO + anchor.tsegments;
        if sn > TEMPSEG_END_NO {
          return sn, DB_E_LIMITSIZE;
        }
      } else {
        return sn, DB_FAIL;
      }
      if !isTemp && anchor.fixed {
        return sn, DB_E_FIXEDDBSIZE;
      }
      if anchor.maxSegments != 0 && anchor.Total() >= anchor.maxSegments {
        return sn, DB_E_LIMITSIZE;
      }
      if sn >= SEGMENT_NO || anchor.Occupied(sn) {
        return sn, DB_E_SEGALLOCFAIL;
      }
      ret := 0;
    }

    /** One more data segment behind the tail of the free list. */
    method AllocateSegment(pageid: PageId) returns (ret: int)
      requires Valid() && data != [] && pageid == Last(data)
      modifies this`pages, this`firstFree, this`anchor, this`data
      ensures Valid() && firstFree == old(firstFree)
      ensures ret <= 0 && (ret == 0 <==> DataFits(old(anchor), pageid) && old(anchor).Granted())
      ensures ret == 0 ==> data == old(data) + WholeSegment(old(anchor.segments)) && anchor == MoreData(old(anchor))
      ensures ret == 0 ==> Last(data) == PageAt(old(anchor.segments), PAGE_PER_SEGMENT - 1)
      ensures ret != 0 ==> data == old(data) && pages == old(pages)
      ensures ret != 0 ==> anchor == old(if DataFits(anchor, pageid) then anchor.Asked() else anchor)
      ensures old(Doubly()) ==> Doubly()
    {
      SuffixIsList(pages, firstFree, data, 0, anchor.segments, |data| - 1);
      var sn;
      sn, ret := DataRoom(pageid);
      if ret >= 0 {
        var granted := Obtain();
        if granted {
          HookData(sn, pageid);
        } else {
          ret := DB_E_OUTOFDBMEMORY;
        }
      }
    }

    method HookIndex(sn: nat, pageid: PageId)
      requires Valid() && index != [] && pageid == Last(index)
      requires IndexFits(anchor) && sn == SEGMENT_NO - 1 - anchor.isegments
      modifies this`pages, this`anchor, this`index
      ensures Valid()
      ensures index == old(index) + WholeSegment(sn) && anchor == old(anchor).(isegments := old(anchor.isegments) + 1)
      ensures Last(index) == PageAt(sn, PAGE_PER_SEGMENT - 1)
      ensures old(Doubly()) ==> Doubly()
    {
      var a' := anchor.(isegments := anchor.isegments + 1);
      SuffixIsList(pages, ifirstFree, index, sn + 1, SEGMENT_NO, |index| - 1);
      Format(sn, pageid);
      IndexSegmentKeeps(anchor, old(pages), lost, firstFree, ifirstFree, data, index, a', sn, pages);
      index := index + WholeSegment(sn);
      anchor := a';
    }

    /** One more index segment behind the tail of the index list. */
    method AllocateIndexSegment(pageid: PageId) returns (ret: int)
      requires Valid() && index != [] && pageid == Last(index)
      modifies this`pages, this`anchor, this`index
      ensures Valid()
      ensures ret <= 0 && (ret == 0 <==> IndexFits(old(anchor)) && old(anchor).Granted())
      ensures ret == 0 ==> index == old(index) + WholeSegment(SEGMENT_NO - 1 - old(anchor.isegments))
      ensures ret == 0 ==> anchor == MoreIndex(old(anchor))
      ensures ret == 0 ==> Last(index) == PageAt(SEGMENT_NO - 1 - old(anchor.isegments), PAGE_PER_SEGMENT - 1)
      ensures ret != 0 ==> index == old(index) && pages == old(pages)
      ensures ret != 0 ==> anchor == old(if IndexFits(anchor) then anchor.Asked() else anchor)
      ensures old(Doubly()) ==> Doubly()
    {
      var sn := SEGMENT_NO - 1 - anchor.isegments;
      if sn <= TEMPSEG_END_NO {
        ret := DB_E_LIMITSIZE;
      } else if anchor.maxSegments != 0 && anchor.segments + anchor.isegments >= anchor.maxSegments {
        ret := DB_E_LIMITSIZE;
      } else if sn == 0 || anchor.Occupied(sn) {
        ret := DB_E_IDXSEGALLOCFAILL;
      } else {
        var granted := Obtain();
        if granted {
          HookIndex(sn, pageid);
        }
        ret := if granted then 0 else DB_E_OUTOFDBMEMORY;
      }
    }

    /** Data segments behind a tail until enough were added or one is refused. */
    method GrowData(start: int, numsegment: int, first: PageId) returns (i: int)
      requires Valid() && data != [] && first == Last(data) && start >= 0
      modifies this`pages, this`firstFree, this`anchor, this`data
      ensures Valid() && (old(Doubly()) ==> Doubly())
      ensures i - start == DataRun(old(anchor), first, Positive(numsegment - start))
      ensures anchor == AfterData(old(anchor), first, Positive(numsegment - start))
      ensures data == old(data) + DataPages(old(anchor.segments), i - start)
    {
      i := start;
      var pageid := first;
      ghost var k: nat, n := 0, Positive(numsegment - start);
      ghost var a0, d0 := anchor, data;
      while i < numsegment
        invariant Valid() && (old(Doubly()) ==> Doubly())
        invariant i == start + k && k <= n
        invariant DataSoFar(a0, first, d0, n, k, anchor, pageid, data)
      {
        var ret;
        ret, pageid := NextData(pageid, a0, first, d0, n, k);
        if ret < 0 {
          break;
        }
        i, k := i + 1, k + 1;
        if k == n {
          DataRunIsOver(a0, first, d0, n, anchor, pageid, data);
        }
      }
      assert i - start == k;
    }

    // One turn of the loop: a segment more, or the end of the run.
    method NextData(pageid: PageId, ghost a0: Anchor, ghost first: PageId, ghost d0: seq<PageId>, ghost n: nat,
                    ghost k: nat)
      returns (ret: int, next: PageId)
      requires Valid() && k < n && DataSoFar(a0, first, d0, n, k, anchor, pageid, data)
      modifies this`pages, this`firstFree, this`anchor, this`data
      ensures Valid() && (old(Doubly()) ==> Doubly())
      ensures ret >= 0 ==> DataSoFar(a0, first, d0, n, k + 1, anchor, next, data)
      ensures ret < 0 ==> DataRun(a0, first, n) == k && AfterData(a0, first, n) == anchor
      ensures ret < 0 ==> data == d0 + DataPages(a0.segments, k)
    {
      var sn := anchor.segments;
      ghost var a, d := anchor, data;
      ret := AllocateSegment(pageid);
      next := PageAt(sn, PAGE_PER_SEGMENT - 1);
      if ret < 0 {
        DataRunStops(a0, first, d0, n, k, a, pageid, d);
      } else {
        DataRunGoesOn(a0, first, d0, n, k, a, pageid, d);
      }
    }

    /** The same for index segments. */
    method GrowIndex(numIdxSegment: int, first: PageId) returns (i: int)
      requires Valid() && index != [] && first == Last(index)
      modifies this`pages, this`anchor, this`index
      ensures Valid()
      ensures i == IndexRun(old(anchor), Positive(numIdxSegment))
      ensures anchor == AfterIndex(old(anchor), Positive(numIdxSegment))
      ensures index == old(index) + IndexPages(old(anchor.isegments), i)
      ensures old(Doubly()) ==> Doubly()
    {
      i := 0;
      var pageid := first;
      ghost var n, a0, d0 := Positive(numIdxSegment), anchor, index;
      while i < numIdxSegment
        invariant 0 <= i <= n && Valid() && (old(Doubly()) ==> Doubly())
        invariant IndexSoFar(a0, d0, n, i, anchor, pageid, index)
      {
        var ret;
        ret, pageid := NextIndex(pageid, a0, d0, n, i);
        if ret < 0 {
          break;
        }
        i := i + 1;
      }
    }

    method NextIndex(pageid: PageId, ghost a0: Anchor, ghost d0: seq<PageId>, ghost n: nat, ghost k: nat)
      returns (ret: int, next: PageId)
      requires Valid() && k < n && IndexSoFar(a0, d0, n, k, anchor, pageid, index)
      modifies this`pages, this`anchor, this`index
      ensures Valid() && (old(Doubly()) ==> Doubly())
      ensures ret >= 0 ==> IndexSoFar(a0, d0, n, k + 1, anchor, next, index)
      ensures ret < 0 ==> IndexRun(a0, n) == k && AfterIndex(a0, n) == anchor
      ensures ret < 0 ==> index == d0 + IndexPages(a0.isegments, k)
    {
      ghost var a, d := anchor, index;
      ret := AllocateIndexSegment(pageid);
      if ret < 0 {
        IndexRunStops(a0, d0, n, k, a, pageid, d);
        next := pageid;
      } else {
        IndexRunGoesOn(a0, d0, n, k, a, pageid, d);
        var sn := SEGMENT_NO - anchor.isegments;
        next := PageAt(sn, PAGE_PER_SEGMENT - 1);
      }
    }

    method BeginTransaction() returns (ret: int)
      requires trans == -1
      modifies this`trans, this`calls
      ensures calls == old(calls) + [Begin(ret >= 0)]
      ensures ret >= 0 <==> startable > 0
      ensures ret < 0 ==> ret == DB_FAIL
      ensures trans == if startable > 0 then startable else -1
    {
      ret := if startable > 0 then startable else DB_FAIL;
      if startable > 0 {
        trans := startable;
      }
      calls := calls + [Begin(ret >= 0)];
    }

    method EndTransaction(commit: bool)
      modifies this`trans, this`calls
      ensures trans == -1 && calls == old(calls) + [if commit then Commit else Abort]
    {
      trans := -1;
      calls := calls + [if commit then Commit else Abort];
    }

    // Give an empty free list its first segment.
    method FirstSegment() returns (i: nat, ret: int)
      requires Valid()
      modifies this`pages, this`firstFree, this`anchor, this`data
      ensures Valid() && (old(Doubly()) ==> Doubly())
      ensures i == FirstGain(old(anchor), Last(old(data))) && (ret < 0 <==> i == 0 && Last(old(data)) == NULL_PID)
      ensures data == old(data) + DataPages(old(anchor.segments), i)
      ensures anchor.segments == old(anchor.segments) + i && anchor.isegments == old(anchor.isegments)
      ensures ret >= 0 ==> data != [] && anchor == AfterFirst(old(anchor), Last(old(data)))
      ensures ret >= 0 ==> Last(data) == TailAfterFirst(old(anchor), Last(old(data)))
      ensures Walkable(data, index, lost, 1) == Walkable(old(data), index, lost, 1)
      ensures Walkable(data, index, lost, 0) == Walkable(old(data), index, lost, 0)
    {
      i, ret := 0, 0;
      if data != [] {
        SuffixIsList(pages, firstFree, data, 0, anchor.segments, |data| - 1);
      }
      if firstFree == NULL_PID {
        ret := CheckFreeSegment();
        if ret < 0 {
          return;
        }
        i := 1;
        WholeSegmentIs(old(anchor.segments));
        assert DataPages(old(anchor.segments), 1) == WholeSegment(old(anchor.segments));
      }
    }

    // The tails of both lists, the index list only when index segments are wanted.
    method FindTails(numIdxSegment: int) returns (pageid: PageId, indexTail: PageId, ok: bool)
      requires Valid() && data != []
      ensures ok == Walkable(data, index, lost, numIdxSegment)
      ensures ok ==> pageid == Last(data)
      ensures ok && numIdxSegment > 0 ==> index != [] && indexTail == Last(index)
    {
      indexTail := NULL_PID;
      pageid, ok := WalkToTail(firstFree, data, 0, anchor.segments);
      if ok && numIdxSegment > 0 {
        indexTail, ok := WalkToTail(ifirstFree, index, SEGMENT_NO - anchor.isegments, SEGMENT_NO);
      }
    }

    // Data segments, then index segments. The index loop starts counting anew.
    method GrowBoth(start: nat, numsegment: int, pageid: PageId, numIdxSegment: int, indexTail: PageId)
      returns (i: int, ghost gained: nat, ghost igained: nat)
      requires Valid() && data != [] && pageid == Last(data)
      requires numIdxSegment > 0 ==> index != [] && indexTail == Last(index)
      modifies this`pages, this`firstFree, this`anchor, this`data, this`index
      ensures Valid() && (old(Doubly()) ==> Doubly())
      ensures data == old(data) + DataPages(old(anchor.segments), gained)
      ensures index == old(index) + IndexPages(old(anchor.isegments), igained)
      ensures gained == DataRun(old(anchor), pageid, Positive(numsegment - start))
      ensures igained == IndexRun(AfterData(old(anchor), pageid, Positive(numsegment - start)), Positive(numIdxSegment))
      ensures i == if numIdxSegment > 0 then igained else start + gained
    {
      i := GrowData(start, numsegment, pageid);
      gained, igained := i - start, 0;
      AfterDataCounts(old(anchor), pageid, Positive(numsegment - start));
      if numIdxSegment > 0 {
        i := GrowIndex(numIdxSegment, indexTail);
        igained := i;
      }
    }

    // The rest of a growth call once the free list is not empty.
    method GrowOn(start: nat, numsegment: int, numIdxSegment: int)
      returns (i: int, ghost gained: nat, ghost igained: nat)
      requires Valid() && data != []
      modifies this`pages, this`firstFree, this`anchor, this`data, this`index
      ensures Valid() && (old(Doubly()) ==> Doubly())
      ensures start <= gained && data == old(data) + DataPages(old(anchor.segments), gained - start)
      ensures index == old(index) + IndexPages(old(anchor.isegments), igained)
      ensures Outcome(gained, igained, i) ==
                Continued(old(anchor), old(Last(data)), old(Walkable(data, index, lost, numIdxSegment)), start,
                          numsegment, numIdxSegment)
    {
      gained, igained := start, 0;
      var pageid, indexTail, ok := FindTails(numIdxSegment);
      if !ok {
        i := DB_E_OIDPOINTER;
        return;
      }
      ghost var more: nat;
      i, more, igained := GrowBoth(start, numsegment, pageid, numIdxSegment, indexTail);
      gained := start + more;
    }

    /** The part of a growth call between the two ends of its transaction. The
        lists grow at their ends by whole segments in number order, `gained` and
        `igained` many, and what the call answers is fixed by `Growth`. */
    method Grow(numsegment: int, numIdxSegment: int) returns (i: int, ghost gained: nat, ghost igained: nat)
      requires Valid()
      modifies this`pages, this`firstFree, this`anchor, this`data, this`index
      ensures Valid() && (old(Doubly()) ==> Doubly())
      ensures data == old(data) + DataPages(old(anchor.segments), gained)
      ensures index == old(index) + IndexPages(old(anchor.isegments), igained)
      ensures Outcome(gained, igained, i) ==
                Growth(old(anchor), Last(old(data)), Walkable(old(data), old(index), lost, numIdxSegment), numsegment,
                       numIdxSegment)
    {
      gained, igained := 0, 0;
      ghost var s0, d0 := anchor.segments, data;
      var first, ret := FirstSegment();
      if ret < 0 {
        return 0, 0, 0;
      }
      ghost var d1 := data;
      i, gained, igained := GrowOn(first, numsegment, numIdxSegment);
      GrownTwice(d0, d1, data, s0, first, gained);
    }

    /** A growth call. `slot` tells whether the calling thread has a place for a
        transaction number. A transaction is begun and ended here exactly when
        none was open on entry: committed when the answer is not an error,
        aborted when it is. The limits are checked before anything is touched. */
    method AddSegment(numsegment: int, numIdxSegment: int, slot: bool)
      returns (i: int, ghost gained: nat, ghost igained: nat)
      requires Valid()
      modifies this
      ensures Valid() && (old(Doubly()) ==> Doubly()) && lost == old(lost) && startable == old(startable)
      ensures data == old(data) + DataPages(old(anchor.segments), gained)
      ensures index == old(index) + IndexPages(old(anchor.isegments), igained)
      ensures trans == old(trans)
      ensures !Admitted(old(anchor), numsegment) ==> i == DB_E_LIMITDBSIZE
      ensures Admitted(old(anchor), numsegment) && !slot ==> i == DB_E_INVALIDPARAM
      ensures !(Admitted(old(anchor), numsegment) && slot) ==>
                && anchor == old(anchor) && pages == old(pages) && calls == old(calls)
                && checkpoints == old(checkpoints) && gained == igained == 0
      ensures Admitted(old(anchor), numsegment) && slot ==>
                checkpoints == old(checkpoints) + 1 && calls == old(calls) + Bracket(old(trans), startable > 0, i >= 0)
      ensures i >= 0 ==> gained == DataGain(old(anchor), Last(old(data)), numsegment)
      ensures i >= 0 ==> i == if numIdxSegment > 0 then igained else gained
      ensures Admitted(old(anchor), numsegment) && slot ==>
                Outcome(gained, igained, i) ==
                    old(Answer(trans, startable, anchor, Last(data), Walkable(data, index, lost, numIdxSegment),
                               numsegment, numIdxSegment))
    {
      gained, igained := 0, 0;
      var segNum := numsegment + anchor.segments;
      if anchor.maxSegments != 0 && segNum >= anchor.maxSegments {
        return DB_E_LIMITDBSIZE, 0, 0;
      }
      if segNum >= SEGMENT_NO {
        return DB_E_LIMITDBSIZE, 0, 0;
      }
      if !slot {
        return DB_E_INVALIDPARAM, 0, 0;
      }
      i, gained, igained := Bracketed(numsegment, numIdxSegment);
      ghost var walkable := old(Walkable(data, index, lost, numIdxSegment));
      AnswerMeans(old(trans), startable, old(anchor), Last(old(data)), walkable, numsegment, numIdxSegment);
    }

    // From the opening of the transaction to the end of the call.
    method Bracketed(numsegment: int, numIdxSegment: int) returns (i: int, ghost gained: nat, ghost igained: nat)
      requires Valid()
      modifies this`pages, this`firstFree, this`anchor, this`data, this`index, this`trans, this`calls, this`checkpoints
      ensures Valid() && (old(Doubly()) ==> Doubly())
      ensures data == old(data) + DataPages(old(anchor.segments), gained)
      ensures index == old(index) + IndexPages(old(anchor.isegments), igained)
      ensures trans == old(trans) && checkpoints == old(checkpoints) + 1
      ensures calls == old(calls) + Bracket(old(trans), startable > 0, i >= 0)
      ensures Outcome(gained, igained, i) ==
                old(Answer(trans, startable, anchor, Last(data), Walkable(data, index, lost, numIdxSegment),
                           numsegment, numIdxSegment))
    {
      i, gained, igained := 0, 0, 0;
      var current := trans;
      if current == -1 {
        i := BeginTransaction();
      }
      if i >= 0 {
        i, gained, igained := Grow(numsegment, numIdxSegment);
      }
      if current == -1 {
        EndTransaction(i >= 0);
      }
      BracketOf(old(calls), old(trans), startable > 0, i >= 0);
      checkpoints := checkpoints + 1;
    }
  }

  // The limits looked at on entry.
  predicate Admitted(a: Anchor, n: int)
  {
    (a.maxSegments == 0 || n + a.segments < a.maxSegments) && n + a.segments < SEGMENT_NO
  }

  // The outcome of an admitted call: without a transaction nothing grows.
  function Answer(trans: int, startable: int, a: Anchor, tail: PageId, walkable: bool, n: int, nIdx: int): Outcome
  {
    if trans == -1 && startable <= 0 then Outcome(0, 0, DB_FAIL) else Growth(a, tail, walkable, n, nIdx)
  }

  lemma BracketOf(calls: seq<Call>, trans: int, begun: bool, commit: bool)
    ensures calls + Bracket(trans, begun, commit) ==
              if trans == -1 then calls + [Begin(begun)] + [if commit then Commit else Abort] else calls
  {
  }

  // An answer that is no error counts what was obtained.
  lemma AnswerMeans(trans: int, startable: int, a: Anchor, tail: PageId, walkable: bool, n: int, nIdx: int)
    ensures var o := Answer(trans, startable, a, tail, walkable, n, nIdx);
            o.result >= 0 ==> o.gained == DataGain(a, tail, n) && o.result == if nIdx > 0 then o.igained else o.gained
  {
  }

  function Bracket(trans: int, begun: bool, commit: bool): seq<Call>
  {
    if trans == -1 then [Begin(begun), if commit then Commit else Abort] else []
  }

  function Positive(n: int): nat { if n > 0 then n else 0 }

  // Every page the two walks look at can be brought in, and there is an index list to walk.
  ghost predicate Walkable(data: seq<PageId>, index: seq<PageId>, lost: set<PageId>, numIdxSegment: int)
  {
    && (forall q :: q in data ==> q !in lost)
    && (numIdxSegment > 0 ==> index != [] && forall q :: q in index ==> q !in lost)
  }

  datatype Outcome = Outcome(gained: nat, igained: nat, result: int)
}
