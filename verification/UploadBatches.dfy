/**
  The batcher of the upload loop: encoded records are appended to one string,
  and the string is sent whenever the next record would push it over the limit.
*/
module UploadBatches {
  import opened RecordCodec

  const HUGE_STRING_LENGTH: nat := 8156

  predicate Fits(batch: seq<string>) {
    |Flatten(batch)| <= HUGE_STRING_LENGTH
  }

  // The batches the loop makes of the remaining records, the open batch first.
  // Each batch is kept as the list of records in it; its text is Flatten of it.
  function Batches(open: seq<string>, rest: seq<string>): seq<seq<string>>
    decreases |rest|
  {
    if |rest| == 0 then (if |Flatten(open)| > 0 then [open] else [])
    else if |Flatten(open)| + |rest[0]| > HUGE_STRING_LENGTH then [open] + Batches([rest[0]], rest[1..])
    else Batches(open + [rest[0]], rest[1..])
  }

  predicate AllFit(batches: seq<seq<string>>) {
    forall i :: 0 <= i < |batches| ==> Fits(batches[i])
  }

  predicate AllShort(encs: seq<string>) {
    forall i :: 0 <= i < |encs| ==> |encs[i]| <= HUGE_STRING_LENGTH
  }

  predicate NonEmpty(encs: seq<string>) {
    forall i :: 0 <= i < |encs| ==> |encs[i]| > 0
  }

  lemma FlattenOne(s: string)
    ensures Flatten([s]) == s
  {
    assert [s][1..] == [];
  }

  lemma FlattenSnoc(batch: seq<string>, s: string)
    ensures Flatten(batch + [s]) == Flatten(batch) + s
  {
    FlattenAppend(batch, [s]);
    FlattenOne(s);
  }

  lemma {:induction false} FlattenLonger(batch: seq<string>)
    requires NonEmpty(batch) && |batch| > 0
    ensures |Flatten(batch)| > 0
  {
  }

  // --------------------------------------------------------------------------
  // Conservation

  lemma {:induction false} OpenBatchesPartition(open: seq<string>, rest: seq<string>)
    requires NonEmpty(open) && NonEmpty(rest)
    ensures Flatten(Batches(open, rest)) == open + rest
    decreases |rest|
  {
    if |rest| == 0 {
      if |open| > 0 {
        FlattenLonger(open);
        assert [open][1..] == [];
      }
    } else if |Flatten(open)| + |rest[0]| > HUGE_STRING_LENGTH {
      OpenBatchesPartition([rest[0]], rest[1..]);
      assert ([open] + Batches([rest[0]], rest[1..]))[1..] == Batches([rest[0]], rest[1..]);
    } else {
      OpenBatchesPartition(open + [rest[0]], rest[1..]);
      assert open + [rest[0]] + rest[1..] == open + rest;
    }
  }

  lemma {:induction false} FlattenTwice(batches: seq<seq<string>>)
    ensures Flatten(Flatten(batches)) == Flatten(Texts(batches))
  {
    if |batches| > 0 {
      FlattenTwice(batches[1..]);
      FlattenAppend(batches[0], Flatten(batches[1..]));
      assert Texts(batches)[1..] == Texts(batches[1..]);
    }
  }

  function Texts(batches: seq<seq<string>>): (ts: seq<string>)
    ensures |ts| == |batches| && forall i :: 0 <= i < |ts| ==> ts[i] == Flatten(batches[i])
  {
    seq(|batches|, i requires 0 <= i < |batches| => Flatten(batches[i]))
  }

  /** Every record lies whole in exactly one batch, in order, and the texts of
      the batches joined are the texts of the records joined. */
  lemma BatchesPartition(encs: seq<string>)
    requires NonEmpty(encs)
    ensures Flatten(Batches([], encs)) == encs
    ensures Flatten(Texts(Batches([], encs))) == Flatten(encs)
  {
    OpenBatchesPartition([], encs);
    FlattenTwice(Batches([], encs));
    assert [] + encs == encs;
  }

  // --------------------------------------------------------------------------
  // Sizes

  lemma AllFitCons(batch: seq<string>, batches: seq<seq<string>>)
    ensures AllFit([batch] + batches) <==> Fits(batch) && AllFit(batches)
  {
    var all := [batch] + batches;
    assert forall i :: 0 <= i < |batches| ==> batches[i] == all[i + 1];
    assert all[0] == batch;
  }

  lemma AllShortCons(encs: seq<string>)
    requires |encs| > 0
    ensures AllShort(encs) <==> |encs[0]| <= HUGE_STRING_LENGTH && AllShort(encs[1..])
  {
    assert forall i :: 0 <= i < |encs| - 1 ==> encs[1..][i] == encs[i + 1];
    assert forall i :: 0 < i < |encs| ==> encs[i] == encs[1..][i - 1];
  }

  lemma {:induction false} OpenBatchSizes(open: seq<string>, rest: seq<string>)
    requires NonEmpty(open) && NonEmpty(rest) && |open| > 0
    ensures forall i :: 0 <= i < |Batches(open, rest)| ==> |Flatten(Batches(open, rest)[i])| > 0
    ensures AllFit(Batches(open, rest)) <==> Fits(open) && AllShort(rest)
    decreases |rest|
  {
    FlattenLonger(open);
    if |rest| == 0 {
      AllFitCons(open, []);
      assert [open] + [] == [open];
    } else {
      AllShortCons(rest);
      if |Flatten(open)| + |rest[0]| > HUGE_STRING_LENGTH {
        FlattenOne(rest[0]);
        OpenBatchSizes([rest[0]], rest[1..]);
        AllFitCons(open, Batches([rest[0]], rest[1..]));
      } else {
        FlattenSnoc(open, rest[0]);
        OpenBatchSizes(open + [rest[0]], rest[1..]);
      }
    }
  }

  /** No batch exceeds the limit just when no record does; and a batch can be
      empty only in front of an oversized first record. */
  lemma BatchSizes(encs: seq<string>)
    requires NonEmpty(encs)
    ensures AllFit(Batches([], encs)) <==> AllShort(encs)
    ensures (exists i :: 0 <= i < |Batches([], encs)| && |Flatten(Batches([], encs)[i])| == 0) <==>
            |encs| > 0 && |encs[0]| > HUGE_STRING_LENGTH
  {
    if |encs| > 0 {
      var tail := Batches([encs[0]], encs[1..]);
      FlattenOne(encs[0]);
      OpenBatchSizes([encs[0]], encs[1..]);
      AllShortCons(encs);
      assert [] + [encs[0]] == [encs[0]];
      if |encs[0]| > HUGE_STRING_LENGTH {
        assert Batches([], encs) == [[]] + tail;
        AllFitCons([], tail);
        assert |Flatten(Batches([], encs)[0])| == 0;
      } else {
        assert Batches([], encs) == tail;
      }
    }
  }

  // --------------------------------------------------------------------------
  // No other order-preserving packing needs fewer messages

  // How many more batches the loop opens when the open one holds `fill` characters.
  function Openings(fill: nat, rest: seq<string>): nat
    decreases |rest|
  {
    if |rest| == 0 then 0
    else if fill + |rest[0]| > HUGE_STRING_LENGTH then 1 + Openings(|rest[0]|, rest[1..])
    else Openings(fill + |rest[0]|, rest[1..])
  }

  lemma {:induction false} CountBatches(open: seq<string>, rest: seq<string>)
    requires NonEmpty(open) && NonEmpty(rest) && |open| + |rest| > 0
    ensures |Batches(open, rest)| == 1 + Openings(|Flatten(open)|, rest)
    decreases |rest|
  {
    if |rest| == 0 {
      FlattenLonger(open);
    } else {
      FlattenOne(rest[0]);
      FlattenSnoc(open, rest[0]);
      if |Flatten(open)| + |rest[0]| > HUGE_STRING_LENGTH {
        CountBatches([rest[0]], rest[1..]);
      } else {
        CountBatches(open + [rest[0]], rest[1..]);
      }
    }
  }

  lemma {:induction false} FullerOpensMore(less: nat, more: nat, rest: seq<string>)
    requires less <= more <= HUGE_STRING_LENGTH
    requires AllShort(rest)
    ensures Openings(less, rest) <= Openings(more, rest) <= 1 + Openings(less, rest)
    decreases |rest|
  {
    if |rest| > 0 {
      var n := |rest[0]|;
      if more + n <= HUGE_STRING_LENGTH {
        FullerOpensMore(less + n, more + n, rest[1..]);
      } else if less + n <= HUGE_STRING_LENGTH {
        FullerOpensMore(n, less + n, rest[1..]);
      }
    }
  }

  // The records of `first` go on filling a batch that already holds `used`
  // characters in another packing, where the batches of `more` follow.
  lemma {:induction false} StaysAhead(fill: nat, used: nat, first: seq<string>, more: seq<seq<string>>)
    requires fill <= used && used + |Flatten(first)| <= HUGE_STRING_LENGTH
    requires AllFit(more) && AllShort(first + Flatten(more))
    ensures Openings(fill, first + Flatten(more)) <= |more|
    decreases |more|, |first|
  {
    if |first| > 0 {
      var rest := first[1..] + Flatten(more);
      Uncons(first, Flatten(more));
      assert AllShort(rest);
      StaysAhead(fill + |first[0]|, used + |first[0]|, first[1..], more);
    } else {
      assert first + Flatten(more) == Flatten(more);
      if |more| > 0 {
        assert Flatten(more) == more[0] + Flatten(more[1..]);
        assert Fits(more[0]);
        StaysAhead(0, 0, more[0], more[1..]);
        FullerOpensMore(0, fill, Flatten(more));
      }
    }
  }

  lemma Uncons(first: seq<string>, rest: seq<string>)
    requires |first| > 0
    ensures first + rest == [first[0]] + (first[1..] + rest)
    ensures (first + rest)[1..] == first[1..] + rest
  {
  }

  /** The loop sends as few messages as any way of cutting the records, in
      order, into batches within the limit. */
  lemma {:induction false} FewestBatches(encs: seq<string>, packing: seq<seq<string>>)
    requires NonEmpty(encs) && Flatten(packing) == encs
    requires AllFit(packing)
    ensures |Batches([], encs)| <= |packing|
  {
    if |encs| > 0 {
      CountBatches([], encs);
      PackedRecordsFit(packing);
      assert |Flatten<char>([])| == 0;
      StaysAhead(0, 0, packing[0], packing[1..]);
    }
  }

  lemma {:induction false} BatchCoversRecords(batch: seq<string>)
    ensures forall i :: 0 <= i < |batch| ==> |batch[i]| <= |Flatten(batch)|
  {
    if |batch| > 0 {
      BatchCoversRecords(batch[1..]);
      assert forall i :: 0 < i < |batch| ==> batch[i] == batch[1..][i - 1];
    }
  }

  lemma {:induction false} PackedRecordsFit(packing: seq<seq<string>>)
    requires AllFit(packing)
    ensures AllShort(Flatten(packing))
  {
    if |packing| > 0 {
      BatchCoversRecords(packing[0]);
      PackedRecordsFit(packing[1..]);
    }
  }
}
