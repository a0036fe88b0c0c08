/**
 * The record source behind the decoder: Go's encoding/csv Reader, seen only
 * through what it yields. The tokenizer (quoting, delimiters, leading-space
 * trimming) is not modelled; `rows` is what it produces, in file order,
 * each entry either the cells of one record or the error for a line it
 * could not tokenize. Read hands out one entry per call and then reports
 * end of data for ever.
 */
module Records {
  import opened Wrappers

  /** One tokenizer result: the cells of a record, or a malformed-line error. */
  datatype Row = Cells(cells: seq<string>) | Malformed(message: string)

  /**
   * A Go error value, as far as callers of the decoder can tell errors
   * apart: io.EOF itself, a csv.ParseError, or any other error with its
   * message. Read fails with the first two; an UnmarshalCSV hook may return any.
   */
  datatype GoError = EOF | ParseError(message: string) | Other(message: string)

  /** What Read returns when the cursor stands at pos. */
  function ReadAt(rows: seq<Row>, pos: nat): (r: Result<seq<string>, GoError>)
    ensures pos >= |rows| <==> r == Failure(EOF)
    ensures pos < |rows| && rows[pos].Cells? ==> r == Success(rows[pos].cells)
    ensures pos < |rows| && rows[pos].Malformed? ==> r == Failure(ParseError(rows[pos].message))
  {
    if pos >= |rows| then Failure(EOF)
    else match rows[pos]
      case Cells(cells) => Success(cells)
      case Malformed(message) => Failure(ParseError(message))
  }

  /** Where the cursor stands after a Read at pos: one entry further, unless the rows are used up. */
  function NextPos(rows: seq<Row>, pos: nat): (next: nat)
    ensures pos < |rows| ==> next == pos + 1
    ensures pos >= |rows| ==> next == pos
  {
    if pos < |rows| then pos + 1 else pos
  }

  class Reader {
    const rows: seq<Row>
    var pos: nat
    var trimLeadingSpace: bool

    ghost predicate Valid()
      reads this
    {
      pos <= |rows|
    }

    /** csv.NewReader: cursor at the first row, TrimLeadingSpace off. */
    constructor (rows: seq<Row>)
      ensures Valid()
      ensures this.rows == rows && pos == 0 && !trimLeadingSpace
    {
      this.rows := rows;
      pos := 0;
      trimLeadingSpace := false;
    }

    /** csv.Reader.Read: the next entry, advancing the cursor by one; io.EOF once the rows are used up. */
    method Read() returns (r: Result<seq<string>, GoError>)
      requires Valid()
      modifies this`pos
      ensures Valid()
      ensures r == ReadAt(rows, old(pos)) && pos == NextPos(rows, old(pos))
      ensures old(pos) == |rows| ==> r == Failure(EOF) && pos == old(pos)
    {
      if pos == |rows| {
        return Failure(EOF);
      }
      match rows[pos] {
        case Cells(cells) => r := Success(cells);
        case Malformed(message) => r := Failure(ParseError(message));
      }
      pos := pos + 1;
    }
  }
}
