/**
  The null flags of a stored record: a bitmap behind the record body, one bit per
  field, highest bit of a byte first.
*/
module NullBitmap {

  // The bit of a field within its byte.
  function Mask(k: nat): bv8
    requires k < 8
  {
    0x80 >> k
  }

  predicate Covers(rec: seq<bv8>, field: nat, offset: nat) { offset + field / 8 < |rec| }

  predicate IsNull(rec: seq<bv8>, field: nat, offset: nat)
    requires Covers(rec, field, offset)
  {
    rec[offset + field / 8] & Mask(field % 8) != 0
  }

  datatype Op = SetNull(field: nat) | SetNotNull(field: nat)

  function Apply(rec: seq<bv8>, op: Op, offset: nat): (r: seq<bv8>)
    requires Covers(rec, op.field, offset)
    ensures |r| == |rec|
  {
    var i := offset + op.field / 8;
    rec[i := if op.SetNull? then rec[i] | Mask(op.field % 8) else rec[i] & !Mask(op.field % 8)]
  }

  lemma SetBit(b: bv8, j: nat, k: nat)
    requires j < 8 && k < 8
    ensures (b | Mask(j)) & Mask(k) != 0 <==> j == k || b & Mask(k) != 0
  {
  }

  lemma ClearBit(b: bv8, j: nat, k: nat)
    requires j < 8 && k < 8
    ensures (b & !Mask(j)) & Mask(k) != 0 <==> j != k && b & Mask(k) != 0
  {
  }

  lemma SamePlace(f: nat, g: nat)
    ensures f == g <==> f / 8 == g / 8 && f % 8 == g % 8
  {
  }

  /** One operation changes one flag to what it says, and nothing else of the
      record: no other flag, no bit of another byte. */
  lemma ApplyChangesOneFlag(rec: seq<bv8>, op: Op, offset: nat, field: nat)
    requires Covers(rec, op.field, offset) && Covers(rec, field, offset)
    ensures IsNull(Apply(rec, op, offset), field, offset) <==>
              if field == op.field then op.SetNull? else IsNull(rec, field, offset)
    ensures forall i :: 0 <= i < |rec| && i != offset + op.field / 8 ==> Apply(rec, op, offset)[i] == rec[i]
  {
    SamePlace(field, op.field);
    FlagOfByte(rec, op, offset, field / 8, field % 8);
  }

  lemma FlagOfByte(rec: seq<bv8>, op: Op, offset: nat, i: nat, k: nat)
    requires Covers(rec, op.field, offset) && offset + i < |rec| && k < 8
    ensures Apply(rec, op, offset)[offset + i] & Mask(k) != 0 <==>
            if i == op.field / 8 && k == op.field % 8 then op.SetNull? else rec[offset + i] & Mask(k) != 0
  {
    var j := op.field % 8;
    if i == op.field / 8 {
      SetBit(rec[offset + i], j, k);
      ClearBit(rec[offset + i], j, k);
    } else {
      assert Apply(rec, op, offset)[offset + i] == rec[offset + i];
    }
  }

  predicate AllCovered(rec: seq<bv8>, ops: seq<Op>, offset: nat)
  {
    forall k :: 0 <= k < |ops| ==> Covers(rec, ops[k].field, offset)
  }

  function ApplyAll(rec: seq<bv8>, ops: seq<Op>, offset: nat): (r: seq<bv8>)
    requires AllCovered(rec, ops, offset)
    ensures |r| == |rec|
    decreases |ops|
  {
    if ops == [] then rec else Apply(ApplyAll(rec, ops[..|ops| - 1], offset), ops[|ops| - 1], offset)
  }

  // The set of null fields that a run of operations leaves, as a set.
  function NullSet(nulls: set<nat>, ops: seq<Op>): set<nat>
    decreases |ops|
  {
    if ops == [] then nulls
    else
      var before := NullSet(nulls, ops[..|ops| - 1]);
      var op := ops[|ops| - 1];
      if op.SetNull? then before + {op.field} else before - {op.field}
  }

  /** The bitmap refines a set of fields: after any run of operations a field reads
      as null exactly when it is in the set the same operations leave. */
  lemma {:induction false} BitmapIsSet(rec: seq<bv8>, nulls: set<nat>, ops: seq<Op>, offset: nat, field: nat)
    requires AllCovered(rec, ops, offset) && Covers(rec, field, offset)
    requires field in nulls <==> IsNull(rec, field, offset)
    ensures IsNull(ApplyAll(rec, ops, offset), field, offset) <==> field in NullSet(nulls, ops)
    decreases |ops|
  {
    if ops != [] {
      var front := ops[..|ops| - 1];
      BitmapIsSet(rec, nulls, front, offset, field);
      ApplyChangesOneFlag(ApplyAll(rec, front, offset), ops[|ops| - 1], offset, field);
    }
  }

  predicate IsLast(ops: seq<Op>, field: nat, k: int)
  {
    0 <= k < |ops| && ops[k].field == field && forall j :: k < j < |ops| ==> ops[j].field != field
  }

  /** A field that no operation names keeps its bit. */
  lemma {:induction false} UnnamedKeepsBit(rec: seq<bv8>, ops: seq<Op>, offset: nat, field: nat)
    requires AllCovered(rec, ops, offset) && Covers(rec, field, offset)
    requires forall k :: 0 <= k < |ops| ==> ops[k].field != field
    ensures IsNull(ApplyAll(rec, ops, offset), field, offset) <==> IsNull(rec, field, offset)
    decreases |ops|
  {
    if ops != [] {
      var n := |ops| - 1;
      UnnamedKeepsBit(rec, ops[..n], offset, field);
      ApplyChangesOneFlag(ApplyAll(rec, ops[..n], offset), ops[n], offset, field);
    }
  }

  /** The last operation on a field decides. */
  lemma {:induction false} LastOperationDecides(rec: seq<bv8>, ops: seq<Op>, offset: nat, field: nat, k: nat)
    requires AllCovered(rec, ops, offset) && Covers(rec, field, offset) && IsLast(ops, field, k)
    ensures IsNull(ApplyAll(rec, ops, offset), field, offset) <==> ops[k].SetNull?
    decreases |ops|
  {
    var n := |ops| - 1;
    if k < n {
      LastOperationDecides(rec, ops[..n], offset, field, k);
    }
    ApplyChangesOneFlag(ApplyAll(rec, ops[..n], offset), ops[n], offset, field);
  }

  /** The record body, and everything behind the bitmap of n fields, is left alone. */
  lemma {:induction false} BodyUntouched(rec: seq<bv8>, ops: seq<Op>, offset: nat, n: nat, i: nat)
    requires AllCovered(rec, ops, offset) && i < |rec|
    requires forall k :: 0 <= k < |ops| ==> ops[k].field < n
    requires i < offset || offset + (n + 7) / 8 <= i
    ensures ApplyAll(rec, ops, offset)[i] == rec[i]
    decreases |ops|
  {
    if ops != [] {
      var op := ops[|ops| - 1];
      BodyUntouched(rec, ops[..|ops| - 1], offset, n, i);
      assert op.field < n;
      assert op.field / 8 < (n + 7) / 8;
    }
  }

  // ---------- the macros, on a record buffer ----------

  method DbValueIsNull(rec: array<bv8>, fieldPos: nat, nullFlagOffset: nat) returns (flag: bv8)
    requires Covers(rec[..], fieldPos, nullFlagOffset)
    ensures flag != 0 <==> IsNull(rec[..], fieldPos, nullFlagOffset)
  {
    flag := rec[nullFlagOffset + fieldPos / 8] & Mask(fieldPos % 8);
  }

  method DbValueSetNull(rec: array<bv8>, fieldPos: nat, nullFlagOffset: nat)
    requires Covers(rec[..], fieldPos, nullFlagOffset)
    modifies rec
    ensures rec[..] == Apply(old(rec[..]), SetNull(fieldPos), nullFlagOffset)
  {
    var i := nullFlagOffset + fieldPos / 8;
    rec[i] := rec[i] | Mask(fieldPos % 8);
  }

  method DbValueSetNotNull(rec: array<bv8>, fieldPos: nat, nullFlagOffset: nat)
    requires Covers(rec[..], fieldPos, nullFlagOffset)
    modifies rec
    ensures rec[..] == Apply(old(rec[..]), SetNotNull(fieldPos), nullFlagOffset)
  {
    var i := nullFlagOffset + fieldPos / 8;
    rec[i] := rec[i] & !Mask(fieldPos % 8);
  }
}
