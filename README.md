# yegle/csv — the struct decoder, modelled in Dafny

`yegle/csv` wraps Go's `encoding/csv` reader in a `Decoder`. Each call to
`Decoder.Decode(v)` reads one record and stores its cells, position by
position, into the fields of the struct that `v` points to. Three tables
pick the conversion from a field's kind: signed integers go through
`strconv.ParseInt`, unsigned ones through `strconv.ParseUint`, floats through
`strconv.ParseFloat`, and strings are copied. An empty cell in a numeric
field stores zero. A nil pointer field is allocated first. A pointer field
whose type implements `Unmarshaller` is handed to its `UnmarshalCSV` method
instead. The first failing field ends the call, and fields written before it
keep their new values. `NewDecoder` switches the reader's
`TrimLeadingSpace` on.

The model has these modules:

- `Strconv` (strconv.dfy): base-10 `ParseInt`/`ParseUint` as the decoder
  calls them. Go's `strconv` package is not part of this repository, so it is
  modelled from Go's documented behaviour. The module proves that both
  parsers accept exactly the in-range decimal texts, and that they read back
  what `FormatInt`/`FormatUint` write.
- `Kinds` (kinds.dfy): `reflect.Kind`, the three kind-to-bit-size tables, the
  values a field can hold, zero values, and the per-field descriptor that
  stands in for reflection: name, kind, `CanSet`, and whether the field's
  type implements `Unmarshaller`.
- `Records` (records.dfy): the `csv.Reader` seen through what it yields, one
  tokenized record (or one tokenizer error) per `Read`, then `io.EOF`. It is
  a class with a cursor that `Read` advances.
- `Decoding` (decoding.dfy): the pure specification of one call
  (`DecodeField`, `Run`, `DecodeRecord`), the struct as a class whose value
  array is updated in place (`Target`), and `Decoder.Decode`. `Decode` is an
  imperative loop over the record, proved to leave exactly the values and
  error that `DecodeRecord` gives.
- `DecodeLemmas` (decode_lemmas.dfy): what a call does, field by field and
  for the whole record. It covers the empty-cell rule, the
  "stored iff it parses" rule for each numeric table, allocation, hook
  dispatch and verbatim errors, and the first-failure/no-rollback shape of
  the outcome.
- `Scenarios` (scenarios.dfy): the repository's test cases, benchmarks and
  package example, each stated as a method that builds a decoder and a zero
  struct and calls `Decode`.

## Model

| member | source | states |
|---|---|---|
| `Strconv.ParseUint` | decode.go:112 | strconv.ParseUint(s, 10, size): the empty text is ErrSyntax, and a value read is never above the bit size's maximum |
| `Strconv.ParseInt` | decode.go:103 | strconv.ParseInt(s, 10, size): the empty text and a lone sign are ErrSyntax; a value read lies in the bit size's signed range, and is negative only after a minus sign |
| `Strconv.ParseUintCorrect` | decode.go:109-117 | ParseUint(s, 10, size) succeeds iff s is a non-empty digit string whose value fits the bit size; the value is then the decimal value; a too-large digit string is ErrRange and the empty text ErrSyntax |
| `Strconv.ParseIntCorrect` | decode.go:100-108 | ParseInt(s, 10, size) succeeds iff s is one optional sign followed by digits and its value lies in [-2^(n-1), 2^(n-1)-1]; the value is then the signed decimal value |
| `Strconv.ScanDigitsCorrect` | decode.go:112 | the digit scan succeeds from any prefix exactly when the whole text is digits within the maximum, returns its value, and reports ErrRange for a too-large digit string |
| `Strconv.ParseUintFormatUint` | decode.go:112 | ParseUint reads back FormatUint(n) as n when n fits the bit size, and as ErrRange otherwise |
| `Strconv.ParseIntFormatInt` | decode.go:103 | ParseInt reads back FormatInt(n) as n exactly when n lies in the signed range of the bit size, and as ErrRange otherwise |
| `Strconv.FormatUintValue` | decode.go:112 | the decimal text FormatUint writes denotes n |
| `Kinds.IntKindToSize` | decode.go:19-25 | the signed kinds map to a bit size ParseInt accepts (0, 8, 16, 32, 64), every other kind to nothing |
| `Kinds.UintKindToSize` | decode.go:26-32 | exactly the unsigned kinds, Uintptr excluded, map to a bit size ParseUint accepts; every other kind to nothing |
| `Kinds.FloatKindToSize` | decode.go:33-36 | exactly Float32 and Float64 map to a size, and that size is 32 or 64 |
| `Kinds.KindTablesDisjoint` | decode.go:18-37 | no kind is in two tables; String, pointers, Bool, Uintptr, the complex kinds and all others are in none |
| `Kinds.Zero` | decode.go:86-87 | the zero value reflect.New allocates: nil exactly for pointer kinds, 0 for every table kind, "" for String |
| `Records.Reader.constructor` | decode.go:46 | csv.NewReader: the cursor at the first record and TrimLeadingSpace off |
| `Records.Reader.Read` | decode.go:68 | Read yields the entry at the cursor and advances by one; once the records are used up it yields io.EOF and stays put |
| `Decoding.Allocate` | decode.go:85-88 | a pointer field holds a non-nil pointer after allocation; a non-nil pointer and a non-pointer value are left as they are |
| `Decoding.Convert` | decode.go:99-131 | the built-in conversion of one cell: when it fails, the field keeps its value and the error is a parse error or an unsupported kind, naming the field |
| `DecodeLemmas.ConvertOutcome` | decode.go:99-131 | an empty cell in a numeric field stores that kind's zero; a stored integer lies in its field's range and a float field gets a float; a failure is a parse error exactly for a non-empty cell in a numeric field, otherwise unsupported (a kind that is neither numeric nor String); success only for numeric or String kinds |
| `Decoding.DecodeField` | decode.go:78-131 | a field's turn ends only with a field error; every error except a hook's names the field, and a hook's error arises only for a pointer field whose type has a hook |
| `Decoding.Run` | decode.go:77-133 | the field loop keeps the number of values, can end only with a field error, and never with a hook's error when no field is a hooked pointer |
| `Decoding.DecodeRecord` | decode.go:68-133 | a call fails with a read error exactly when Read failed, and with a length error exactly when the cell count differs from the field count; without hooked pointer fields it never fails with a hook's error |
| `Decoding.Target.constructor` | example_test.go:24 | a fresh struct holds the zero value of each field's kind |
| `Decoding.Target.SetField` | decode.go:78-98 | one loop iteration in place: only field i changes, to DecodeField's value, and the error is DecodeField's |
| `Decoding.Target.SetBuiltin` | decode.go:99-131 | the built-in conversions in place: only field i changes, to the conversion's value, and the error is the conversion's |
| `Decoding.Decoder.constructor` | decode.go:45-49 | NewDecoder: a reader over the records, at the first one, with TrimLeadingSpace on |
| `Decoding.Decoder.Decode` | decode.go:52-134 | anything but a struct pointer is refused before the reader moves; otherwise exactly one record is consumed and the struct and error become DecodeRecord's; at the end of input the error is io.EOF and the struct is untouched |
| `DecodeLemmas.NotSettableField` | decode.go:80-81 | a field that cannot be set stops the call with an error naming it and keeps its value |
| `DecodeLemmas.EmptyNumericCellIsZero` | decode.go:100-126 | an empty cell in any signed, unsigned or float field stores zero and is not an error |
| `DecodeLemmas.SignedCell` | decode.go:100-108 | a non-empty cell in a signed field is stored iff it is a signed decimal within the field's range; otherwise the error is a parse error naming the field and the field keeps its value |
| `DecodeLemmas.UnsignedCell` | decode.go:109-117 | a non-empty cell in an unsigned field is stored iff it is a decimal within the field's range; a too-large decimal is a range error naming the field; the field keeps its value on error |
| `DecodeLemmas.FloatCell` | decode.go:118-126 | a non-empty cell in a float field stores what ParseFloat returns for the field's bit size, or fails with its error naming the field |
| `DecodeLemmas.StringCell` | decode.go:127-130 | a string field receives the cell text verbatim |
| `DecodeLemmas.NilPointerAllocated` | decode.go:85-88 | a nil pointer field is non-nil after its turn; without a hook it holds a zero pointee and the call fails as unsupported |
| `DecodeLemmas.HookDispatch` | decode.go:89-98 | a pointer field whose type has a hook gets what the hook leaves in its pointee; the hook's error value, io.EOF included, is the call's error unchanged, and no error means the field succeeded |
| `DecodeLemmas.HookOnlyForPointers` | decode.go:89-92 | for a field that is not a pointer with a hook, the result does not depend on any UnmarshalCSV method |
| `DecodeLemmas.UnsupportedKind` | decode.go:131 | a kind in no table, not String and not a pointer with a hook fails with an error naming the field |
| `DecodeLemmas.FirstFailure` | decode.go:77-132 | the first position whose field fails: every field before it succeeds, and the field at it fails |
| `DecodeLemmas.RunOutcome` | decode.go:77-133 | the loop stores each field's own result up to and including the first failing one, leaves the later ones untouched, and returns the failing field's error |
| `DecodeLemmas.DecodeRecordOutcome` | decode.go:73-133 | a cell count mismatch reports both counts and changes no field; otherwise the fields up to the first failure hold their results, the later ones keep their values (no rollback), and the error is the failing field's |
| `DecodeLemmas.ReadErrorPassesThrough` | decode.go:68-71 | a read error, io.EOF included, is the call's error as the reader gave it, and no field changes |
| `DecodeLemmas.DecodeSucceedsIffEveryFieldDoes` | decode.go:73-133 | a call succeeds iff the counts agree and every field's own turn succeeds; each field then holds its own result |
| `DecodeLemmas.PointersSetAfterSuccess` | decode.go:85-98 | after a successful call every pointer field is non-nil |
| `DecodeLemmas.RunIgnoresHooks` | decode.go:89-98 | a struct with no hooked pointer field decodes the same whatever the UnmarshalCSV methods do |
| `Scenarios.PadLeft` | decode_test.go:24-27 | the %10s padding of MyString's hook: text at least as wide is unchanged, shorter text is right-aligned in width 10 with spaces |
| `Scenarios.MyStringUnmarshal` | decode_test.go:24-27 | (*MyString).UnmarshalCSV never fails and stores a string of width max(len, 10) that ends with the cell text, padded on the left with spaces |
| `Scenarios.PaddedString` | decode_test.go:24-27 | MyString's hook turns "string" into "    string" |
| `Scenarios.MixedRow` | decode_test.go:62-70 | one-digit int and uint cells, a text and a float cell decode into {int, uint, string, float}, whatever the struct held |
| `Scenarios.DecodeMixed` | decode_test.go:62-70 | `1, 2,"test", 5` into {F1 int; F2 uint; F3 string; F4 float64} gives {1, 2, "test", 5.0} and no error |
| `Scenarios.FiveIntsRow` | decode_test.go:71-80 | five one-digit cells decode into five int fields as those digits, whatever the struct held |
| `Scenarios.DecodeFiveInts` | decode_test.go:71-80 | `1, 2, 3, 4, 5` into five int fields gives {1, 2, 3, 4, 5} and no error |
| `Scenarios.MyStringRow` | decode_test.go:81-91 | a hooked *MyString field between int fields holds a pointer to what the hook makes of its cell |
| `Scenarios.DecodeMyString` | decode_test.go:81-91 | `1, 2, "string", 5` into {F1 int; F2 int; F3 *MyString; F4 int} gives {1, 2, &"    string", 5} and no error |
| `Scenarios.SimpleStringsRow` | decode_test.go:119-127 | five cells of one text into five non-pointer MySimpleString fields give five copies of it |
| `Scenarios.DecodeSimpleStrings` | decode_test.go:119-133 | the Unmarshaller benchmark's record stores "test" in all five fields, without calling any hook |
| `Scenarios.DecodeTooFewCells` | decode.go:73-75 | four cells for five fields fail with the counts 5 and 4, leave the struct at zero and consume the record |
| `Scenarios.PointerToIntRow` | decode.go:85-131 | a nil *int field is allocated, then refused as unsupported; the field before it keeps its new value and the one after it is untouched |
| `Scenarios.DecodePointerToInt` | decode.go:85-131 | `7, 8, x` into {N int; P *int; S string} gives {7, &0, ""} and the unsupported-type error naming P |
| `Scenarios.DecodeNonPointer` | decode.go:60-63 | a nil pointer argument is refused and the reader does not move |
| `Scenarios.ExampleRow` | example_test.go:12-20 | a line of the package example decodes into {int, int, float32, string}, whatever the struct held |
| `Scenarios.DecodeExample` | example_test.go:11-37 | the two example lines give {1 2 3 test} and {4 5 6 another_test}; the third call reports io.EOF and leaves the struct as it was |
| `Scenarios.DecodeAll` | decode_test.go:208-216 | calling Decode until it returns io.EOF, going on past other errors, ends; if the reader gave the io.EOF the input is used up after one call per remaining record plus one; if a hook returned it, after one call per record consumed; without hooked pointer fields only the reader can end it |
| `Scenarios.DecodeAtEnd` | decode.go:68-71 | a call on a used-up reader returns io.EOF as the reader gave it and changes neither the struct nor the reader |

## Left out

- The CSV tokenizer (quoting, delimiters, `TrimLeadingSpace`, the reader's
  per-record field count check) is not modelled. The reader is given as the
  sequence of what it yields: the cells of each record, or an error for a
  line it cannot tokenize. `NewDecoder` only records that `TrimLeadingSpace`
  is on. The scenarios pass the cells as the trimmed tokenizer would produce
  them.
- Reflection is replaced by an explicit field descriptor (name, kind,
  `CanSet`, and whether the field's type implements `Unmarshaller`) and by
  the `Arg` classification of the argument. The `IsValid` check
  (decode.go:82-83) is not modelled, because a field reached through a
  struct value is always valid.
- `strconv.ParseFloat` and the `UnmarshalCSV` methods are parameters
  (`Externals`): their bodies are not part of this model. `MyDate`'s hook,
  which calls `time.Parse`, is left out for the same reason.
- Floats are the binary64 bits that `ParseFloat`
  returns. `float32` rounding, and what `SetFloat` does to the stored value,
  are not modelled.
- Error values are constructors, not Go's formatted messages. The reader's
  and a hook's errors are Go error values (`GoError`) that keep `io.EOF`
  apart from the rest: an `io.EOF` returned by a hook is `io.EOF` to the
  caller. Other error values are told apart only by their message.
- A pointer value owns its pointee. Two fields that alias one pointee are not
  modelled, and neither is the effect of a hook on anything but its field.
- `ParseInt` and `ParseUint` take only the bit sizes the tables produce
  (0, 8, 16, 32, 64). Bit size 0 stands for a 64-bit platform `int`.
- Values are not typed against their fields' kinds: the model does not
  state that an `int8` field only ever holds values in range. Only
  successful parses store into numeric fields, and those are range-checked.
- The flag parsing in the test file's `init` and the benchmark that reads a
  file from disk are not modelled. Their decode loop is `Scenarios.DecodeAll`.
