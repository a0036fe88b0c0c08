/**
 * What one Decode call does to a struct, stated field by field and for the
 * whole record, from the specification functions of module Decoding.
 */
module DecodeLemmas {
  import opened Wrappers
  import opened Strconv
  import opened Kinds
  import opened Records
  import opened Decoding

  // ---------------------------------------------------------------------
  // One field
  // ---------------------------------------------------------------------

  /** A field that cannot be set stops the call, naming the field, and keeps its value. */
  lemma NotSettableField(f: Field, v: Value, cell: string, ext: Externals)
    requires !f.settable
    ensures DecodeField(f, v, cell, ext) == FieldResult(v, Some(NotSettable(f.name)))
  {
  }

  /** An empty cell stores zero in every signed, unsigned and float field, and is never an error. */
  lemma EmptyNumericCellIsZero(f: Field, v: Value, ext: Externals)
    requires f.settable
    requires IntKindToSize(f.kind).Some? || UintKindToSize(f.kind).Some? || FloatKindToSize(f.kind).Some?
    ensures DecodeField(f, v, "", ext) == FieldResult(Zero(f.kind), None)
  {
  }

  /**
   * A non-empty cell in a signed field is stored exactly when it is an
   * optionally signed decimal that fits the field's bit size; otherwise the
   * call fails with a parse error naming the field and the field keeps its value.
   */
  lemma SignedCell(f: Field, v: Value, cell: string, ext: Externals)
    requires f.settable && IntKindToSize(f.kind).Some? && cell != ""
    ensures var size := IntKindToSize(f.kind).value;
            var r := DecodeField(f, v, cell, ext);
            && (r.err.None? <==> SignedDigits(cell) && MinInt(size) <= SignedDecimal(cell) <= MaxInt(size))
            && (r.err.None? ==> r.value == IntV(SignedDecimal(cell)))
            && (r.err.Some? ==> r.value == v && r.err.value.ParseFailed? && r.err.value.field == f.name)
  {
    ParseIntCorrect(cell, IntKindToSize(f.kind).value);
  }

  /**
   * A non-empty cell in an unsigned field is stored exactly when it is an
   * unsigned decimal that fits the field's bit size; a decimal that is too
   * large is a range error; the field keeps its value on any error.
   */
  lemma UnsignedCell(f: Field, v: Value, cell: string, ext: Externals)
    requires f.settable && UintKindToSize(f.kind).Some? && cell != ""
    ensures var size := UintKindToSize(f.kind).value;
            var r := DecodeField(f, v, cell, ext);
            && (r.err.None? <==> AllDigits(cell) && Decimal(cell) <= MaxUint(size))
            && (r.err.None? ==> r.value == UintV(Decimal(cell)))
            && (AllDigits(cell) && Decimal(cell) > MaxUint(size) ==> r == FieldResult(v, Some(ParseFailed(f.name, ErrRange))))
            && (r.err.Some? ==> r.value == v && r.err.value.ParseFailed? && r.err.value.field == f.name)
  {
    ParseUintCorrect(cell, UintKindToSize(f.kind).value);
  }

  /** A non-empty cell in a float field stores what ParseFloat returns, or fails naming the field. */
  lemma FloatCell(f: Field, v: Value, cell: string, ext: Externals)
    requires f.settable && FloatKindToSize(f.kind).Some? && cell != ""
    ensures var r := DecodeField(f, v, cell, ext);
            match ext.parseFloat(cell, FloatKindToSize(f.kind).value)
            case Success(x) => r == FieldResult(FloatV(x), None)
            case Failure(e) => r == FieldResult(v, Some(ParseFailed(f.name, e)))
  {
  }

  /**
   * The built-in conversions as a whole: an empty numeric cell stores the
   * kind's zero; a parse error arises exactly for a non-empty cell in a
   * numeric field, and any other failure is an unsupported kind; a stored
   * integer lies in its field's range; only numeric and String kinds succeed.
   */
  lemma ConvertOutcome(f: Field, v: Value, cell: string, ext: Externals)
    ensures var r := Convert(f, v, cell, ext);
            && (cell == "" && IsNumeric(f.kind) ==> r == FieldResult(Zero(f.kind), None))
            && (r.err.Some? ==> (r.err.value.ParseFailed? <==> cell != "" && IsNumeric(f.kind)))
            && (r.err.Some? && !r.err.value.ParseFailed? ==> !IsNumeric(f.kind) && !f.kind.String?)
            && (r.err.None? ==> IsNumeric(f.kind) || f.kind.String?)
            && (r.err.None? && IntKindToSize(f.kind).Some? ==>
                  r.value.IntV? && MinInt(IntKindToSize(f.kind).value) <= r.value.i <= MaxInt(IntKindToSize(f.kind).value))
            && (r.err.None? && UintKindToSize(f.kind).Some? ==>
                  r.value.UintV? && r.value.u <= MaxUint(UintKindToSize(f.kind).value))
            && (r.err.None? && FloatKindToSize(f.kind).Some? ==> r.value.FloatV?)
  {
    KindTablesDisjoint(f.kind);
  }

  /** A string field receives the cell text verbatim, whatever hook its type may have. */
  lemma StringCell(f: Field, v: Value, cell: string, ext: Externals)
    requires f.settable && f.kind == String
    ensures DecodeField(f, v, cell, ext) == FieldResult(StrV(cell), None)
  {
  }

  /**
   * A nil pointer field is non-nil after its turn, whatever happens next;
   * without a hook it holds a fresh zero pointee and the call fails as
   * unsupported, even when the pointee's kind is a supported scalar.
   */
  lemma NilPointerAllocated(f: Field, v: Value, cell: string, ext: Externals)
    requires f.settable && f.kind.Ptr? && !v.Ref?
    ensures DecodeField(f, v, cell, ext).value.Ref?
    ensures f.hook.None? ==>
              DecodeField(f, v, cell, ext) == FieldResult(Ref(Zero(f.kind.elem)), Some(Unsupported(f.name)))
  {
  }

  /**
   * A pointer field whose type has a hook is handed to the hook, on the
   * existing pointee or on a fresh zero one; the pointee is what the hook
   * leaves, and the hook's error is the call's error, verbatim.
   */
  lemma HookDispatch(f: Field, v: Value, cell: string, ext: Externals)
    requires f.settable && f.kind.Ptr? && f.hook.Some?
    ensures var p := if v.Ref? then v.pointee else Zero(f.kind.elem);
            var o := ext.unmarshal(f.hook.value, p, cell);
            var r := DecodeField(f, v, cell, ext);
            && r.value == Ref(o.pointee)
            && (o.err.Some? ==> r.err == Some(HookFailed(o.err.value)))
            && (o.err.None? ==> r.err.None?)
  {
  }

  /**
   * Hooks are consulted only for pointer fields: for any other field the
   * result is the same whatever the UnmarshalCSV methods do.
   */
  lemma HookOnlyForPointers(f: Field, v: Value, cell: string, ext1: Externals, ext2: Externals)
    requires !(f.kind.Ptr? && f.hook.Some?)
    requires ext1.parseFloat == ext2.parseFloat
    ensures DecodeField(f, v, cell, ext1) == DecodeField(f, v, cell, ext2)
  {
  }

  /**
   * Every kind outside the signed, unsigned and float tables and String,
   * unless it is a pointer with a hook, fails as unsupported, naming the field.
   */
  lemma UnsupportedKind(f: Field, v: Value, cell: string, ext: Externals)
    requires f.settable && !(f.kind.Ptr? && f.hook.Some?) && !f.kind.String?
    requires IntKindToSize(f.kind).None? && UintKindToSize(f.kind).None? && FloatKindToSize(f.kind).None?
    ensures DecodeField(f, v, cell, ext) == FieldResult(Allocate(f, v), Some(Unsupported(f.name)))
  {
  }

  // ---------------------------------------------------------------------
  // The whole record
  // ---------------------------------------------------------------------

  /** Field j's own result, from the value it held before the call. */
  function FieldAt(fields: seq<Field>, vals: seq<Value>, cells: seq<string>, j: nat, ext: Externals): FieldResult
    requires |vals| == |fields| == |cells| && j < |cells|
  {
    DecodeField(fields[j], vals[j], cells[j], ext)
  }

  /** The first position at or after i whose field fails, or |cells| when none does. */
  function FirstFailure(fields: seq<Field>, vals: seq<Value>, cells: seq<string>, i: nat, ext: Externals): (k: nat)
    requires |vals| == |fields| == |cells| && i <= |cells|
    ensures i <= k <= |cells|
    ensures forall j :: i <= j < k ==> FieldAt(fields, vals, cells, j, ext).err.None?
    ensures k < |cells| ==> FieldAt(fields, vals, cells, k, ext).err.Some?
    decreases |cells| - i
  {
    if i == |cells| then i
    else if FieldAt(fields, vals, cells, i, ext).err.Some? then i
    else FirstFailure(fields, vals, cells, i + 1, ext)
  }

  /**
   * The field loop from i, on values cur that still agree with the original
   * values orig from i on: every field up to the first failing one gets its
   * own result, the ones after it keep their values, and the error is the
   * failing field's.
   */
  lemma {:induction false} RunOutcome(fields: seq<Field>, orig: seq<Value>, cur: seq<Value>, cells: seq<string>, i: nat, ext: Externals)
    requires |orig| == |cur| == |fields| == |cells| && i <= |cells|
    requires forall j :: i <= j < |cells| ==> cur[j] == orig[j]
    ensures var o := Run(fields, cur, cells, i, ext);
            var k := FirstFailure(fields, orig, cells, i, ext);
            && o.err == (if k < |cells| then FieldAt(fields, orig, cells, k, ext).err else None)
            && forall j :: 0 <= j < |cur| ==>
                 o.values[j] == if i <= j <= k && j < |cells| then FieldAt(fields, orig, cells, j, ext).value else cur[j]
    decreases |cells| - i
  {
    if i < |cells| {
      var r := DecodeField(fields[i], cur[i], cells[i], ext);
      assert r == FieldAt(fields, orig, cells, i, ext);
      if r.err.None? {
        var next := cur[i := r.value];
        RunOutcome(fields, orig, next, cells, i + 1, ext);
        assert Run(fields, cur, cells, i, ext) == Run(fields, next, cells, i + 1, ext);
        assert FirstFailure(fields, orig, cells, i, ext) == FirstFailure(fields, orig, cells, i + 1, ext);
      }
    }
  }

  /**
   * One call on a record read successfully: a cell count that differs from
   * the field count fails with both counts and touches nothing; otherwise
   * the fields before the first failing one hold their decoded values, the
   * failing one holds what its turn left, the later ones are untouched (no
   * rollback), and the error is the failing field's.
   */
  lemma DecodeRecordOutcome(fields: seq<Field>, vals: seq<Value>, cells: seq<string>, ext: Externals)
    requires |vals| == |fields|
    ensures |cells| != |fields| ==>
              DecodeRecord(fields, vals, Success(cells), ext) == Outcome(vals, Some(LengthMismatch(|fields|, |cells|)))
    ensures |cells| == |fields| ==>
              var o := DecodeRecord(fields, vals, Success(cells), ext);
              var k := FirstFailure(fields, vals, cells, 0, ext);
              && o.err == (if k < |cells| then FieldAt(fields, vals, cells, k, ext).err else None)
              && (forall j :: 0 <= j < |cells| && j <= k ==> o.values[j] == FieldAt(fields, vals, cells, j, ext).value)
              && (forall j :: k < j < |cells| ==> o.values[j] == vals[j])
  {
    if |cells| == |fields| {
      RunOutcome(fields, vals, vals, cells, 0, ext);
    }
  }

  /** A read error, io.EOF included, is the call's error as the reader gave it, and no field changes. */
  lemma ReadErrorPassesThrough(fields: seq<Field>, vals: seq<Value>, e: GoError, ext: Externals)
    requires |vals| == |fields|
    ensures DecodeRecord(fields, vals, Failure(e), ext) == Outcome(vals, Some(ReadFailed(e)))
  {
  }

  /**
   * A call succeeds exactly when the record has one cell per field and every
   * field's turn succeeds; then each field holds its own cell's result, in
   * position order.
   */
  lemma DecodeSucceedsIffEveryFieldDoes(fields: seq<Field>, vals: seq<Value>, cells: seq<string>, ext: Externals)
    requires |vals| == |fields|
    ensures DecodeRecord(fields, vals, Success(cells), ext).err.None? <==>
              |cells| == |fields| && forall j :: 0 <= j < |cells| ==> FieldAt(fields, vals, cells, j, ext).err.None?
    ensures DecodeRecord(fields, vals, Success(cells), ext).err.None? ==>
              forall j :: 0 <= j < |cells| ==>
                DecodeRecord(fields, vals, Success(cells), ext).values[j] == FieldAt(fields, vals, cells, j, ext).value
  {
    DecodeRecordOutcome(fields, vals, cells, ext);
  }

  /** After a successful call every pointer field is non-nil, whatever it held before. */
  lemma PointersSetAfterSuccess(fields: seq<Field>, vals: seq<Value>, cells: seq<string>, ext: Externals)
    requires |vals| == |fields|
    requires DecodeRecord(fields, vals, Success(cells), ext).err.None?
    ensures forall j :: 0 <= j < |fields| && fields[j].kind.Ptr? ==>
              DecodeRecord(fields, vals, Success(cells), ext).values[j].Ref?
  {
    DecodeSucceedsIffEveryFieldDoes(fields, vals, cells, ext);
  }

  /**
   * When no field is a pointer with a hook, no UnmarshalCSV method is ever
   * called: the call's outcome does not depend on them.
   */
  lemma {:induction false} RunIgnoresHooks(fields: seq<Field>, vals: seq<Value>, cells: seq<string>, i: nat, ext1: Externals, ext2: Externals)
    requires |vals| == |fields| == |cells| && i <= |cells|
    requires forall j :: 0 <= j < |fields| ==> !(fields[j].kind.Ptr? && fields[j].hook.Some?)
    requires ext1.parseFloat == ext2.parseFloat
    ensures Run(fields, vals, cells, i, ext1) == Run(fields, vals, cells, i, ext2)
    decreases |cells| - i
  {
    if i < |cells| {
      HookOnlyForPointers(fields[i], vals[i], cells[i], ext1, ext2);
      var r := DecodeField(fields[i], vals[i], cells[i], ext1);
      RunIgnoresHooks(fields, vals[i := r.value], cells, i + 1, ext1, ext2);
    }
  }
}
