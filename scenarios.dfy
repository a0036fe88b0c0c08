/**
 * The repository's test and example scenarios, restated as methods over the model: each
 * method builds a decoder over already-tokenized rows and a zero struct,
 * calls Decode, and states what the struct then holds.
 */
module Scenarios {
  import opened Wrappers
  import opened Strconv
  import opened Kinds
  import opened Records
  import opened Decoding
  import DecodeLemmas

  /** IEEE 754 binary64 bits of 3.0, 5.0 and 6.0. */
  const Three: bv64 := 0x4008_0000_0000_0000
  const Five: bv64 := 0x4014_0000_0000_0000
  const Six: bv64 := 0x4018_0000_0000_0000

  /** n spaces. */
  function Spaces(n: nat): (s: string)
    ensures |s| == n && forall i :: 0 <= i < n ==> s[i] == ' '
  {
    if n == 0 then "" else Spaces(n - 1) + " "
  }

  /** fmt.Sprintf("%*s", width, s): s right-aligned in a field of the given width, padded with spaces. */
  function PadLeft(s: string, width: nat): (r: string)
    ensures |s| >= width ==> r == s
    ensures |s| < width ==> |r| == width && r[width - |s|..] == s
    ensures forall i :: 0 <= i < |r| - |s| ==> r[i] == ' '
  {
    if |s| >= width then s else Spaces(width - |s|) + s
  }

  /** (*MyString).UnmarshalCSV: stores the text right-aligned to width 10. */
  function MyStringUnmarshal(pointee: Value, data: string): (o: HookOutcome)
    ensures o.err.None? && o.pointee.StrV?
    ensures |o.pointee.s| == if |data| < 10 then 10 else |data|
    ensures o.pointee.s[|o.pointee.s| - |data|..] == data
    ensures forall i :: 0 <= i < |o.pointee.s| - |data| ==> o.pointee.s[i] == ' '
  {
    HookOutcome(StrV(PadLeft(data, 10)), None)
  }

  /** The hook's output for the third test case's cell. */
  lemma PaddedString()
    ensures forall p :: MyStringUnmarshal(p, "string") == HookOutcome(StrV("    string"), None)
  {
    assert PadLeft("string", 10) == "    string";
  }

  /** Fields F1, F2, ... all settable, with the given kinds and no hooks, as in the test structs. */
  function Plain(kinds: seq<Kind>): (fields: seq<Field>)
    ensures |fields| == |kinds|
    ensures forall i :: 0 <= i < |kinds| ==> fields[i] == Field(FieldName(i), kinds[i], true, None)
  {
    seq(|kinds|, i requires 0 <= i < |kinds| => Field(FieldName(i), kinds[i], true, None))
  }

  /** The name of the field at position i: F1 for position 0, and so on. */
  function FieldName(i: nat): string
  {
    "F" + FormatUint(i + 1)
  }

  /** A record whose every field decodes without error leaves each field at its own result. */
  lemma AllFieldsDecode(fields: seq<Field>, vals: seq<Value>, cells: seq<string>, ext: Externals, expected: seq<Value>)
    requires |vals| == |fields| == |cells| == |expected|
    requires forall j :: 0 <= j < |cells| ==> DecodeField(fields[j], vals[j], cells[j], ext) == FieldResult(expected[j], None)
    ensures DecodeRecord(fields, vals, Success(cells), ext) == Outcome(expected, None)
  {
    DecodeLemmas.DecodeSucceedsIffEveryFieldDoes(fields, vals, cells, ext);
    var o := DecodeRecord(fields, vals, Success(cells), ext);
    assert forall j :: 0 <= j < |cells| ==> DecodeLemmas.FieldAt(fields, vals, cells, j, ext) == FieldResult(expected[j], None);
    assert o.values == expected;
  }

  lemma {:induction false} Pow2Grows(n: nat)
    ensures Pow2(n) > n
  {
    if n > 0 { Pow2Grows(n - 1); }
  }

  /** A one-digit cell in an `int` field reads as its digit. */
  lemma SmallInt(n: nat)
    requires n < 10
    ensures ParseInt(['0' + n as char], 0) == Success(n)
  {
    ParseIntFormatInt(n, 0);
    assert FormatInt(n) == ['0' + n as char];
    Pow2Grows(63);
  }

  /** A one-digit cell in a settable `int` field stores its digit. */
  lemma DigitIntoInt(f: Field, v: Value, n: nat, ext: Externals)
    requires f.settable && f.kind == Int && n < 10
    ensures DecodeField(f, v, ['0' + n as char], ext) == FieldResult(IntV(n), None)
  {
    SmallInt(n);
  }

  /** A one-digit cell in a `uint` field reads as its digit. */
  lemma SmallUint(n: nat)
    requires n < 10
    ensures ParseUint(['0' + n as char], 0) == Success(n)
  {
    ParseUintFormatUint(n, 0);
    Pow2Grows(64);
  }

  /** A one-digit cell in a settable `uint` field stores its digit. */
  lemma DigitIntoUint(f: Field, v: Value, n: nat, ext: Externals)
    requires f.settable && f.kind == Uint && n < 10
    ensures DecodeField(f, v, ['0' + n as char], ext) == FieldResult(UintV(n), None)
  {
    SmallUint(n);
  }

  /**
   * One Decode call on a struct pointer, at a row whose every field is known
   * to decode: the struct then holds the expected values and the row is consumed.
   */
  method DecodeKnownRow(dec: Decoder, t: Target, ext: Externals, cells: seq<string>, expected: seq<Value>) returns (err: Option<Error>)
    requires dec.reader.Valid() && t.Valid()
    requires dec.reader.pos < |dec.reader.rows| && dec.reader.rows[dec.reader.pos] == Cells(cells)
    requires DecodeRecord(t.fields, t.values[..], Success(cells), ext) == Outcome(expected, None)
    modifies dec.reader`pos, t.values
    ensures dec.reader.Valid() && dec.reader.pos == old(dec.reader.pos) + 1
    ensures err == None && t.values[..] == expected
  {
    err := dec.Decode(StructPointer(t), ext);
  }

  /** Every field can be set, as in every test struct. */
  predicate AllSettable(fields: seq<Field>)
  {
    forall j :: 0 <= j < |fields| ==> fields[j].settable
  }

  /** The struct of the first test case: {F1 int; F2 uint; F3 string; F4 float64}. */
  function MixedFields(): (fields: seq<Field>)
    ensures |fields| == 4 && AllSettable(fields)
    ensures fields[0].kind == Int && fields[1].kind == Uint && fields[2].kind == String && fields[3].kind == Float64
  {
    Plain([Int, Uint, String, Float64])
  }

  /**
   * A line of the first test case, digits a and b, a text d and a float cell
   * c, decodes into {a, b, d, c'}, whatever the struct held before.
   */
  lemma MixedRow(fields: seq<Field>, ext: Externals, prev: seq<Value>, a: nat, b: nat, d: string, c: string, x: bv64)
    requires |fields| == |prev| == 4 && AllSettable(fields)
    requires fields[0].kind == Int && fields[1].kind == Uint && fields[2].kind == String && fields[3].kind == Float64
    requires a < 10 && b < 10 && c != "" && ext.parseFloat(c, 64) == Success(x)
    ensures DecodeRecord(fields, prev, Success([['0' + a as char], ['0' + b as char], d, c]), ext)
              == Outcome([IntV(a), UintV(b), StrV(d), FloatV(x)], None)
  {
    var cells, expected := [['0' + a as char], ['0' + b as char], d, c], [IntV(a), UintV(b), StrV(d), FloatV(x)];
    forall j | 0 <= j < 4 ensures DecodeField(fields[j], prev[j], cells[j], ext) == FieldResult(expected[j], None) {
      if j == 0 { DigitIntoInt(fields[0], prev[0], a, ext); }
      else if j == 1 { DigitIntoUint(fields[1], prev[1], b, ext); }
      else if j == 2 { DecodeLemmas.StringCell(fields[2], prev[2], d, ext); }
      else { DecodeLemmas.FloatCell(fields[3], prev[3], c, ext); }
    }
    AllFieldsDecode(fields, prev, cells, ext, expected);
  }

  /** `1, 2,"test", 5` into {F1 int; F2 uint; F3 string; F4 float64} gives {1, 2, "test", 5.0}. */
  method DecodeMixed(ext: Externals) returns (err: Option<Error>, vals: seq<Value>)
    requires ext.parseFloat("5", 64) == Success(Five)
    ensures err == None && vals == [IntV(1), UintV(2), StrV("test"), FloatV(Five)]
  {
    var cells := ["1", "2", "test", "5"];
    var dec := new Decoder([Cells(cells)]);
    var t := new Target(MixedFields());
    MixedRow(t.fields, ext, t.values[..], 1, 2, "test", "5", Five);
    err := DecodeKnownRow(dec, t, ext, cells, [IntV(1), UintV(2), StrV("test"), FloatV(Five)]);
    vals := t.values[..];
  }

  /** The struct of the second test case: five int fields. */
  function FiveIntFields(): (fields: seq<Field>)
    ensures |fields| == 5 && AllSettable(fields)
    ensures forall j :: 0 <= j < 5 ==> fields[j].kind == Int
  {
    Plain([Int, Int, Int, Int, Int])
  }

  /** Five one-digit cells decode into five int fields as those digits, whatever the struct held before. */
  lemma FiveIntsRow(fields: seq<Field>, ext: Externals, prev: seq<Value>, a: nat, b: nat, c: nat, d: nat, e: nat)
    requires |fields| == |prev| == 5 && AllSettable(fields)
    requires forall j :: 0 <= j < 5 ==> fields[j].kind == Int
    requires a < 10 && b < 10 && c < 10 && d < 10 && e < 10
    ensures DecodeRecord(fields, prev, Success([['0' + a as char], ['0' + b as char], ['0' + c as char], ['0' + d as char], ['0' + e as char]]), ext)
              == Outcome([IntV(a), IntV(b), IntV(c), IntV(d), IntV(e)], None)
  {
    var digits := [a, b, c, d, e];
    var cells := [['0' + a as char], ['0' + b as char], ['0' + c as char], ['0' + d as char], ['0' + e as char]];
    var expected := [IntV(a), IntV(b), IntV(c), IntV(d), IntV(e)];
    forall j | 0 <= j < 5 ensures DecodeField(fields[j], prev[j], cells[j], ext) == FieldResult(expected[j], None) {
      DigitIntoInt(fields[j], prev[j], digits[j], ext);
    }
    AllFieldsDecode(fields, prev, cells, ext, expected);
  }

  /** `1, 2, 3, 4, 5` into five int fields gives {1, 2, 3, 4, 5}. */
  method DecodeFiveInts(ext: Externals) returns (err: Option<Error>, vals: seq<Value>)
    ensures err == None && vals == [IntV(1), IntV(2), IntV(3), IntV(4), IntV(5)]
  {
    var cells := ["1", "2", "3", "4", "5"];
    var dec := new Decoder([Cells(cells)]);
    var t := new Target(FiveIntFields());
    FiveIntsRow(t.fields, ext, t.values[..], 1, 2, 3, 4, 5);
    err := DecodeKnownRow(dec, t, ext, cells, [IntV(1), IntV(2), IntV(3), IntV(4), IntV(5)]);
    vals := t.values[..];
  }

  /** The struct of the third test case: {F1 int; F2 int; F3 *MyString; F4 int}. */
  function MyStringFields(): (fields: seq<Field>)
    ensures |fields| == 4 && AllSettable(fields)
    ensures fields[0].kind == Int && fields[1].kind == Int && fields[3].kind == Int
    ensures fields[2].kind == Ptr(String) && fields[2].hook == Some("MyString")
  {
    [Field("F1", Int, true, None), Field("F2", Int, true, None),
     Field("F3", Ptr(String), true, Some("MyString")), Field("F4", Int, true, None)]
  }

  /**
   * A line of the third test case, digits a, b and d around a text c that
   * the MyString hook turns into padded, decodes into {a, b, &padded, d},
   * whatever the struct held before.
   */
  lemma MyStringRow(fields: seq<Field>, ext: Externals, prev: seq<Value>, a: nat, b: nat, c: string, padded: string, d: nat)
    requires |fields| == |prev| == 4 && AllSettable(fields)
    requires fields[0].kind == Int && fields[1].kind == Int && fields[3].kind == Int
    requires fields[2].kind == Ptr(String) && fields[2].hook == Some("MyString")
    requires a < 10 && b < 10 && d < 10
    requires forall p :: ext.unmarshal("MyString", p, c) == HookOutcome(StrV(padded), None)
    ensures DecodeRecord(fields, prev, Success([['0' + a as char], ['0' + b as char], c, ['0' + d as char]]), ext)
              == Outcome([IntV(a), IntV(b), Ref(StrV(padded)), IntV(d)], None)
  {
    var cells, expected := [['0' + a as char], ['0' + b as char], c, ['0' + d as char]], [IntV(a), IntV(b), Ref(StrV(padded)), IntV(d)];
    forall j | 0 <= j < 4 ensures DecodeField(fields[j], prev[j], cells[j], ext) == FieldResult(expected[j], None) {
      if j == 0 { DigitIntoInt(fields[0], prev[0], a, ext); }
      else if j == 1 { DigitIntoInt(fields[1], prev[1], b, ext); }
      else if j == 2 { DecodeLemmas.HookDispatch(fields[2], prev[2], c, ext); }
      else { DigitIntoInt(fields[3], prev[3], d, ext); }
    }
    AllFieldsDecode(fields, prev, cells, ext, expected);
  }

  /**
   * `1, 2, "string", 5` into {F1 int; F2 int; F3 *MyString; F4 int}: the nil
   * F3 is allocated and its hook pads the text to "    string".
   */
  method DecodeMyString(ext: Externals) returns (err: Option<Error>, vals: seq<Value>)
    requires forall p, data :: ext.unmarshal("MyString", p, data) == MyStringUnmarshal(p, data)
    ensures err == None && vals == [IntV(1), IntV(2), Ref(StrV("    string")), IntV(5)]
  {
    var cells := ["1", "2", "string", "5"];
    var dec := new Decoder([Cells(cells)]);
    var t := new Target(MyStringFields());
    PaddedString();
    MyStringRow(t.fields, ext, t.values[..], 1, 2, "string", "    string", 5);
    err := DecodeKnownRow(dec, t, ext, cells, [IntV(1), IntV(2), Ref(StrV("    string")), IntV(5)]);
    vals := t.values[..];
  }

  /**
   * The struct of the Unmarshaller benchmark: five MySimpleString fields. They
   * are not pointers, and MySimpleString itself (unlike *MySimpleString) does
   * not implement Unmarshaller, so they are plain string fields.
   */
  function SimpleStringFields(): (fields: seq<Field>)
    ensures |fields| == 5 && AllSettable(fields)
    ensures forall j :: 0 <= j < 5 ==> fields[j].kind == String
  {
    Plain([String, String, String, String, String])
  }

  /** Five cells of the same text decode into five copies of it, whatever the struct held before. */
  lemma SimpleStringsRow(fields: seq<Field>, ext: Externals, prev: seq<Value>, text: string)
    requires |fields| == |prev| == 5 && AllSettable(fields)
    requires forall j :: 0 <= j < 5 ==> fields[j].kind == String
    ensures DecodeRecord(fields, prev, Success([text, text, text, text, text]), ext)
              == Outcome([StrV(text), StrV(text), StrV(text), StrV(text), StrV(text)], None)
  {
    var cells, expected := [text, text, text, text, text], [StrV(text), StrV(text), StrV(text), StrV(text), StrV(text)];
    forall j | 0 <= j < 5 ensures DecodeField(fields[j], prev[j], cells[j], ext) == FieldResult(expected[j], None) {
      DecodeLemmas.StringCell(fields[j], prev[j], text, ext);
    }
    AllFieldsDecode(fields, prev, cells, ext, expected);
  }

  /** The Unmarshaller benchmark's record: each field holds the cell text; no hook is called. */
  method DecodeSimpleStrings(ext: Externals) returns (err: Option<Error>, vals: seq<Value>)
    ensures err == None && vals == [StrV("test"), StrV("test"), StrV("test"), StrV("test"), StrV("test")]
  {
    var cells := ["test", "test", "test", "test", "test"];
    var dec := new Decoder([Cells(cells)]);
    var t := new Target(SimpleStringFields());
    SimpleStringsRow(t.fields, ext, t.values[..], "test");
    err := DecodeKnownRow(dec, t, ext, cells, [StrV("test"), StrV("test"), StrV("test"), StrV("test"), StrV("test")]);
    vals := t.values[..];
  }

  /** Five fields and a four-cell record: a length error naming 5 and 4, nothing written, the record consumed. */
  method DecodeTooFewCells(ext: Externals) returns (err: Option<Error>, vals: seq<Value>, pos: nat)
    ensures err == Some(LengthMismatch(5, 4)) && vals == ZeroStruct(Plain([Int, Int, Int, Int, Int])) && pos == 1
  {
    var dec := new Decoder([Cells(["1", "2", "3", "4"])]);
    var t := new Target(Plain([Int, Int, Int, Int, Int]));
    err := dec.Decode(StructPointer(t), ext);
    vals := t.values[..];
    pos := dec.reader.pos;
  }

  /** {N int; P *int; S string}: a struct whose second field is a pointer to a builtin. */
  function PointerToIntFields(): (fields: seq<Field>)
    ensures |fields| == 3 && AllSettable(fields)
    ensures fields[0].kind == Int && fields[1] == Field("P", Ptr(Int), true, None)
  {
    [Field("N", Int, true, None), Field("P", Ptr(Int), true, None), Field("S", String, true, None)]
  }

  /**
   * With P nil, a digit a and any two further cells write N, allocate P and
   * stop there with an unsupported-type error naming P; S keeps what it held.
   */
  lemma PointerToIntRow(fields: seq<Field>, ext: Externals, prev: seq<Value>, a: nat, b: string, c: string)
    requires |fields| == |prev| == 3 && AllSettable(fields)
    requires fields[0].kind == Int && fields[1] == Field("P", Ptr(Int), true, None) && !prev[1].Ref?
    requires a < 10
    ensures DecodeRecord(fields, prev, Success([['0' + a as char], b, c]), ext)
              == Outcome([IntV(a), Ref(IntV(0)), prev[2]], Some(Unsupported("P")))
  {
    var cells := [['0' + a as char], b, c];
    DigitIntoInt(fields[0], prev[0], a, ext);
    var after := prev[0 := IntV(a)];
    DecodeLemmas.NilPointerAllocated(fields[1], after[1], b, ext);
    assert Run(fields, prev, cells, 0, ext) == Run(fields, after, cells, 1, ext);
    assert after[1 := Ref(IntV(0))] == [IntV(a), Ref(IntV(0)), prev[2]];
  }

  /** A nil *int field is allocated and then refused as unsupported; the field before it stays written. */
  method DecodePointerToInt(ext: Externals) returns (err: Option<Error>, vals: seq<Value>)
    ensures err == Some(Unsupported("P")) && vals == [IntV(7), Ref(IntV(0)), StrV("")]
  {
    var dec := new Decoder([Cells(["7", "8", "x"])]);
    var t := new Target(PointerToIntFields());
    PointerToIntRow(t.fields, ext, t.values[..], 7, "8", "x");
    err := dec.Decode(StructPointer(t), ext);
    vals := t.values[..];
  }

  /** Anything but a struct pointer is refused before the reader moves. */
  method DecodeNonPointer(ext: Externals) returns (err: Option<Error>, pos: nat)
    ensures err == Some(NotStructPointer) && pos == 0
  {
    var dec := new Decoder([Cells(["1"])]);
    err := dec.Decode(NilPointer, ext);
    pos := dec.reader.pos;
  }

  /** The struct of the package example: {F1 int; F2 int; F3 float32; F4 string}. */
  function ExampleFields(): (fields: seq<Field>)
    ensures |fields| == 4 && AllSettable(fields)
    ensures fields[0].kind == Int && fields[1].kind == Int && fields[2].kind == Float32 && fields[3].kind == String
  {
    Plain([Int, Int, Float32, String])
  }

  /**
   * A line of the example, digits a and b, a float cell c and a text d,
   * decodes into {a b c' d}, whatever the struct held before.
   */
  lemma ExampleRow(fields: seq<Field>, ext: Externals, prev: seq<Value>, a: nat, b: nat, c: string, x: bv64, d: string)
    requires |fields| == |prev| == 4 && AllSettable(fields)
    requires fields[0].kind == Int && fields[1].kind == Int && fields[2].kind == Float32 && fields[3].kind == String
    requires a < 10 && b < 10 && c != "" && ext.parseFloat(c, 32) == Success(x)
    ensures DecodeRecord(fields, prev, Success([['0' + a as char], ['0' + b as char], c, d]), ext)
              == Outcome([IntV(a), IntV(b), FloatV(x), StrV(d)], None)
  {
    var cells, expected := [['0' + a as char], ['0' + b as char], c, d], [IntV(a), IntV(b), FloatV(x), StrV(d)];
    forall j | 0 <= j < 4 ensures DecodeField(fields[j], prev[j], cells[j], ext) == FieldResult(expected[j], None) {
      if j == 0 { DigitIntoInt(fields[0], prev[0], a, ext); }
      else if j == 1 { DigitIntoInt(fields[1], prev[1], b, ext); }
      else if j == 2 { DecodeLemmas.FloatCell(fields[2], prev[2], c, ext); }
      else { DecodeLemmas.StringCell(fields[3], prev[3], d, ext); }
    }
    AllFieldsDecode(fields, prev, cells, ext, expected);
  }

  /**
   * The package example: two lines into {F1 int; F2 int; F3 float32; F4 string}
   * give {1 2 3 test} and then {4 5 6 another_test}; the third call reports
   * io.EOF and leaves the struct as the second call left it.
   */
  method DecodeExample(ext: Externals) returns (first: seq<Value>, second: seq<Value>, last: Option<Error>, final: seq<Value>)
    requires ext.parseFloat("3", 32) == Success(Three) && ext.parseFloat("6", 32) == Success(Six)
    ensures first == [IntV(1), IntV(2), FloatV(Three), StrV("test")]
    ensures second == [IntV(4), IntV(5), FloatV(Six), StrV("another_test")]
    ensures last == Some(ReadFailed(EOF)) && final == second
  {
    var row1 := ["1", "2", "3", "test"];
    var row2 := ["4", "5", "6", "another_test"];
    var dec := new Decoder([Cells(row1), Cells(row2)]);
    var t := new Target(ExampleFields());
    ExampleRow(t.fields, ext, t.values[..], 1, 2, "3", Three, "test");
    var err := DecodeKnownRow(dec, t, ext, row1, [IntV(1), IntV(2), FloatV(Three), StrV("test")]);
    first := t.values[..];
    ExampleRow(t.fields, ext, t.values[..], 4, 5, "6", Six, "another_test");
    err := DecodeKnownRow(dec, t, ext, row2, [IntV(4), IntV(5), FloatV(Six), StrV("another_test")]);
    second := t.values[..];
    last := DecodeAtEnd(dec, t, ext);
    final := t.values[..];
  }

  /** A Decode call once every record has been read: io.EOF, and the struct keeps its values. */
  method DecodeAtEnd(dec: Decoder, t: Target, ext: Externals) returns (err: Option<Error>)
    requires dec.reader.Valid() && t.Valid() && dec.reader.pos == |dec.reader.rows|
    modifies dec.reader`pos, t.values
    ensures err == Some(ReadFailed(EOF)) && t.values[..] == old(t.values[..]) && dec.reader.pos == old(dec.reader.pos)
  {
    err := dec.Decode(StructPointer(t), ext);
  }

  /**
   * The decode loop of the example and the file benchmark: call Decode until
   * it returns io.EOF, going on past any other error. It ends. When the
   * reader gave the io.EOF, every record has been consumed and there was one
   * call per record plus the final one. A hook that returns io.EOF stops the
   * loop early, after one call per record consumed. Without hooked pointer
   * fields, only the reader can end it.
   */
  method DecodeAll(dec: Decoder, t: Target, ext: Externals) returns (calls: nat, last: Error)
    requires dec.reader.Valid() && t.Valid()
    modifies dec.reader`pos, t.values
    ensures dec.reader.Valid() && IsEOF(last)
    ensures last == ReadFailed(EOF) ==> dec.reader.pos == |dec.reader.rows|
    ensures calls == dec.reader.pos - old(dec.reader.pos) + (if last == ReadFailed(EOF) then 1 else 0)
    ensures NoHooks(t.fields) ==> last == ReadFailed(EOF) && dec.reader.pos == |dec.reader.rows|
  {
    calls := 0;
    while true
      invariant dec.reader.Valid() && t.Valid()
      invariant calls == dec.reader.pos - old(dec.reader.pos)
      decreases |dec.reader.rows| - dec.reader.pos
    {
      var err := dec.Decode(StructPointer(t), ext);
      calls := calls + 1;
      if err.Some? && IsEOF(err.value) {
        last := err.value;
        return;
      }
    }
  }
}
