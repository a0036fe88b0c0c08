/**
 * The decoder: one call reads one record from the reader and stores its
 * cells, position by position, into the fields of a struct.
 *
 * The pure functions DecodeField, Run and DecodeRecord say what one call
 * does to the field values; Decoder.Decode does it in place on the struct's
 * value array and is proved to agree with them.
 */
module Decoding {
  import opened Wrappers
  import opened Strconv
  import opened Kinds
  import opened Records

  /** Everything Decode can return besides success. */
  datatype Error =
    | NotStructPointer                       // the argument is not a non-nil pointer to a struct
    | ReadFailed(readError: GoError)        // the reader's error, io.EOF included, as the reader gave it
    | LengthMismatch(expected: nat, got: nat) // number of fields, number of cells
    | NotSettable(field: string)
    | ParseFailed(field: string, numError: NumError)
    | HookFailed(hookError: GoError)         // an UnmarshalCSV error, verbatim (io.EOF included)
    | Unsupported(field: string)             // "don't know how to decode field"

  /** What an UnmarshalCSV call leaves behind: the pointee as it wrote it, and its error if any. */
  datatype HookOutcome = HookOutcome(pointee: Value, err: Option<GoError>)

  /**
   * Code the decoder calls but that is not part of this model: the
   * UnmarshalCSV methods of user types, looked up by type name and given the
   * current pointee and the cell text; and strconv.ParseFloat, given the
   * cell text and the bit size, returning the binary64 bits of its result.
   */
  datatype Externals = Externals(
    unmarshal: (TypeName, Value, string) -> HookOutcome,
    parseFloat: (string, nat) -> Result<bv64, NumError>)

  /**
   * `err == io.EOF` in the caller: the error Decode returns is the value
   * io.EOF, whether the reader or an UnmarshalCSV hook returned it.
   */
  predicate IsEOF(e: Error) {
    e == ReadFailed(EOF) || e == HookFailed(EOF)
  }

  /** No field is a pointer whose type has an UnmarshalCSV hook. */
  predicate NoHooks(fields: seq<Field>) {
    forall j :: 0 <= j < |fields| ==> !(fields[j].kind.Ptr? && fields[j].hook.Some?)
  }

  /** A kind in one of the three numeric tables. */
  predicate IsNumeric(k: Kind) {
    IntKindToSize(k).Some? || UintKindToSize(k).Some? || FloatKindToSize(k).Some?
  }

  /** The errors a field's own turn can end with. */
  predicate IsFieldError(e: Error) {
    e.NotSettable? || e.ParseFailed? || e.HookFailed? || e.Unsupported?
  }

  /** The value a field holds after its turn, and the error that stops the call, if any. */
  datatype FieldResult = FieldResult(value: Value, err: Option<Error>)

  /** A nil pointer field is given a fresh zero pointee before anything else happens to it. */
  function Allocate(f: Field, v: Value): (p: Value)
    ensures f.kind.Ptr? ==> p.Ref?
    ensures !f.kind.Ptr? || v.Ref? ==> p == v
  {
    if f.kind.Ptr? && !v.Ref? then Ref(Zero(f.kind.elem)) else v
  }

  /**
   * The built-in conversions, tried in the order signed integer, unsigned
   * integer, float, string; an empty cell in a numeric field stores zero.
   * A failed parse leaves the field as it was.
   */
  function Convert(f: Field, v: Value, cell: string, ext: Externals): (r: FieldResult)
    ensures r.err.Some? ==> r.value == v && (r.err.value.ParseFailed? || r.err.value.Unsupported?) && r.err.value.field == f.name
  {
    var k := f.kind;
    if IntKindToSize(k).Some? then
      if cell == "" then FieldResult(IntV(0), None)
      else (match ParseInt(cell, IntKindToSize(k).value)
            case Success(n) => FieldResult(IntV(n), None)
            case Failure(e) => FieldResult(v, Some(ParseFailed(f.name, e))))
    else if UintKindToSize(k).Some? then
      if cell == "" then FieldResult(UintV(0), None)
      else (match ParseUint(cell, UintKindToSize(k).value)
            case Success(n) => FieldResult(UintV(n), None)
            case Failure(e) => FieldResult(v, Some(ParseFailed(f.name, e))))
    else if FloatKindToSize(k).Some? then
      if cell == "" then FieldResult(FloatV(0), None)
      else (match ext.parseFloat(cell, FloatKindToSize(k).value)
            case Success(x) => FieldResult(FloatV(x), None)
            case Failure(e) => FieldResult(v, Some(ParseFailed(f.name, e))))
    else if k.String? then FieldResult(StrV(cell), None)
    else FieldResult(v, Some(Unsupported(f.name)))
  }

  /**
   * One field's turn: settability first, then allocation of a nil pointer,
   * then the UnmarshalCSV hook for a pointer field whose type has one, and
   * only otherwise the built-in conversions.
   */
  function DecodeField(f: Field, v: Value, cell: string, ext: Externals): (r: FieldResult)
    ensures r.err.Some? ==> IsFieldError(r.err.value)
    ensures r.err.Some? && !r.err.value.HookFailed? ==> r.err.value.field == f.name
    ensures r.err.Some? && r.err.value.HookFailed? ==> f.kind.Ptr? && f.hook.Some?
  {
    if !f.settable then FieldResult(v, Some(NotSettable(f.name)))
    else
      var p := Allocate(f, v);
      if f.kind.Ptr? && f.hook.Some? then
        var o := ext.unmarshal(f.hook.value, p.pointee, cell);
        FieldResult(Ref(o.pointee), if o.err.Some? then Some(HookFailed(o.err.value)) else None)
      else Convert(f, p, cell, ext)
  }

  /** The field values after a call, and its error if any. */
  datatype Outcome = Outcome(values: seq<Value>, err: Option<Error>)

  /** The field loop from position i on: each field's result is stored, and the first error ends the loop. */
  function Run(fields: seq<Field>, vals: seq<Value>, cells: seq<string>, i: nat, ext: Externals): (o: Outcome)
    requires |vals| == |fields| == |cells| && i <= |cells|
    ensures |o.values| == |vals|
    ensures o.err.Some? ==> IsFieldError(o.err.value)
    ensures NoHooks(fields) && o.err.Some? ==> !o.err.value.HookFailed?
    decreases |cells| - i
  {
    if i == |cells| then Outcome(vals, None)
    else
      var r := DecodeField(fields[i], vals[i], cells[i], ext);
      if r.err.Some? then Outcome(vals[i := r.value], r.err)
      else Run(fields, vals[i := r.value], cells, i + 1, ext)
  }

  /** One call after the struct check: pass a read error through, check the cell count, run the field loop. */
  function DecodeRecord(fields: seq<Field>, vals: seq<Value>, row: Result<seq<string>, GoError>, ext: Externals): (o: Outcome)
    requires |vals| == |fields|
    ensures |o.values| == |vals|
    ensures row.Failure? <==> o.err.Some? && o.err.value.ReadFailed?
    ensures row.Success? && |row.value| != |fields| <==> o.err.Some? && o.err.value.LengthMismatch?
    ensures NoHooks(fields) && o.err.Some? ==> !o.err.value.HookFailed?
  {
    match row
    case Failure(e) => Outcome(vals, Some(ReadFailed(e)))
    case Success(cells) =>
      if |fields| != |cells| then Outcome(vals, Some(LengthMismatch(|fields|, |cells|)))
      else Run(fields, vals, cells, 0, ext)
  }

  /** A struct value in memory: its type's fields, fixed, and the values they hold, updated in place. */
  class Target {
    const fields: seq<Field>
    const values: array<Value>

    ghost predicate Valid()
      reads this
    {
      values.Length == |fields|
    }

    /** A zero struct of the given type, as reflect.New or a composite literal `T{}` gives. */
    constructor (fields: seq<Field>)
      ensures Valid() && this.fields == fields && fresh(values)
      ensures values[..] == ZeroStruct(fields)
    {
      this.fields := fields;
      values := new Value[|fields|](i requires 0 <= i < |fields| => Zero(fields[i].kind));
    }

    /**
     * The loop body of Decode for field i, in place: the settability check,
     * allocation of a nil pointer, the hook of a pointer field, and
     * otherwise the built-in conversions. Only field i changes.
     */
    method SetField(i: nat, cell: string, ext: Externals) returns (err: Option<Error>)
      requires Valid() && i < |fields|
      modifies values
      ensures var r := DecodeField(fields[i], old(values[i]), cell, ext);
              values[..] == old(values[..])[i := r.value] && err == r.err
    {
      var f := fields[i];
      if !f.settable {
        return Some(NotSettable(f.name));
      }
      if f.kind.Ptr? && !values[i].Ref? {
        values[i] := Ref(Zero(f.kind.elem));
      }
      if f.kind.Ptr? && f.hook.Some? {
        var o := ext.unmarshal(f.hook.value, values[i].pointee, cell);
        values[i] := Ref(o.pointee);
        if o.err.Some? {
          return Some(HookFailed(o.err.value));
        }
        return None;
      }
      err := SetBuiltin(i, cell, ext);
    }

    /**
     * The built-in conversions for field i, in place: SetInt, SetUint,
     * SetFloat or SetString after a successful parse, nothing on failure.
     */
    method SetBuiltin(i: nat, cell: string, ext: Externals) returns (err: Option<Error>)
      requires Valid() && i < |fields|
      modifies values
      ensures var r := Convert(fields[i], old(values[i]), cell, ext);
              values[..] == old(values[..])[i := r.value] && err == r.err
    {
      var f := fields[i];
      var k := f.kind;
      if IntKindToSize(k).Some? {
        var n := 0;
        if cell != "" {
          var parsed := ParseInt(cell, IntKindToSize(k).value);
          if parsed.Failure? {
            return Some(ParseFailed(f.name, parsed.error));
          }
          n := parsed.value;
        }
        values[i] := IntV(n);
        return None;
      } else if UintKindToSize(k).Some? {
        var u := 0;
        if cell != "" {
          var parsed := ParseUint(cell, UintKindToSize(k).value);
          if parsed.Failure? {
            return Some(ParseFailed(f.name, parsed.error));
          }
          u := parsed.value;
        }
        values[i] := UintV(u);
        return None;
      } else if FloatKindToSize(k).Some? {
        var x: bv64 := 0;
        if cell != "" {
          var parsed := ext.parseFloat(cell, FloatKindToSize(k).value);
          if parsed.Failure? {
            return Some(ParseFailed(f.name, parsed.error));
          }
          x := parsed.value;
        }
        values[i] := FloatV(x);
        return None;
      } else if k.String? {
        values[i] := StrV(cell);
        return None;
      }
      return Some(Unsupported(f.name));
    }
  }

  /** The argument handed to Decode, classified as its reflection check sees it. */
  datatype Arg = NonPointer | NilPointer | PointerToNonStruct | StructPointer(target: Target)

  class Decoder {
    const reader: Reader

    /** NewDecoder: a csv.Reader over the rows, with TrimLeadingSpace switched on. */
    constructor (rows: seq<Row>)
      ensures fresh(reader) && reader.Valid()
      ensures reader.rows == rows && reader.pos == 0 && reader.trimLeadingSpace
    {
      var r := new Reader(rows);
      r.trimLeadingSpace := true;
      reader := r;
    }

    /**
     * Decode the next record into the struct v points to. Anything but a
     * struct pointer is refused before the reader is touched; otherwise one
     * entry is read, and the struct's values become those DecodeRecord gives.
     */
    method Decode(v: Arg, ext: Externals) returns (err: Option<Error>)
      requires reader.Valid()
      requires v.StructPointer? ==> v.target.Valid()
      modifies reader`pos, if v.StructPointer? then {v.target.values} else {}
      ensures reader.Valid()
      ensures !v.StructPointer? ==> err == Some(NotStructPointer) && reader.pos == old(reader.pos)
      ensures v.StructPointer? ==>
                var o := DecodeRecord(v.target.fields, old(v.target.values[..]), ReadAt(reader.rows, old(reader.pos)), ext);
                && reader.pos == NextPos(reader.rows, old(reader.pos))
                && v.target.values[..] == o.values
                && err == o.err
      ensures v.StructPointer? && old(reader.pos) == |reader.rows| ==>
                && err == Some(ReadFailed(EOF))
                && reader.pos == old(reader.pos)
                && v.target.values[..] == old(v.target.values[..])
    {
      if !v.StructPointer? {
        return Some(NotStructPointer);
      }
      var s := v.target;

      var record := reader.Read();
      if record.Failure? {
        return Some(ReadFailed(record.error));
      }
      var cells := record.value;

      if |s.fields| != |cells| {
        return Some(LengthMismatch(|s.fields|, |cells|));
      }

      ghost var start := s.values[..];
      var i := 0;
      while i < |cells|
        invariant i <= |cells|
        invariant reader.Valid() && reader.pos == NextPos(reader.rows, old(reader.pos))
        invariant Run(s.fields, start, cells, 0, ext) == Run(s.fields, s.values[..], cells, i, ext)
      {
        err := s.SetField(i, cells[i], ext);
        if err.Some? {
          return;
        }
        i := i + 1;
      }
      return None;
    }
  }
}
