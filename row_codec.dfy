/** Reading rows back into records: `from_row` for one row and the mapping
    over all returned rows in `all`. */
module RowCodec {
  import opened Values
  import opened Schema
  import opened Statements

  /** Why a row could not be read: `row[idx]` past the end of the row, or a
      value `from_value` cannot convert (both panic in the program). */
  datatype DecodeError =
    | IndexOutOfBounds(field: string, index: nat, length: nat)
    | Conversion(field: string, cause: ConvError)

  /** `from_value(&row[$idx])` for one field. */
  function ReadField(f: Field, row: seq<Value>): (r: Result<FieldValue, DecodeError>)
    ensures r.Ok? <==> f.idx < |row| && Decode(f.ty, row[f.idx]).Ok?
    ensures r.Ok? ==> r.value == Decode(f.ty, row[f.idx]).value
    ensures f.idx >= |row| ==> r == Err(IndexOutOfBounds(f.name, f.idx, |row|))
    ensures f.idx < |row| && Decode(f.ty, row[f.idx]).Err? ==>
              r == Err(Conversion(f.name, Decode(f.ty, row[f.idx]).error))
  {
    if f.idx >= |row| then Err(IndexOutOfBounds(f.name, f.idx, |row|))
    else
      match Decode(f.ty, row[f.idx])
      case Ok(v) => Ok(v)
      case Err(e) => Err(Conversion(f.name, e))
  }

  /** The field at declaration position `i` can be read from `row`. */
  predicate Readable(rel: Relation, row: seq<Value>, i: nat)
    requires i < |rel.fields|
  {
    var f := rel.fields[i];
    f.idx < |row| && Decode(f.ty, row[f.idx]).Ok?
  }

  /** `from_row`: every field, in declaration order, gets `row[idx]`
      converted to its type; the row length is never checked, so the row
      succeeds exactly when every index is inside it and every value
      converts, and values at other positions are not looked at. */
  function FromRow(rel: Relation, row: seq<Value>): (r: Result<Record, DecodeError>)
    ensures r.Ok? <==> forall i :: 0 <= i < |rel.fields| ==> Readable(rel, row, i)
    ensures r.Ok? ==> WellTyped(rel, r.value)
    ensures r.Ok? ==> forall i :: 0 <= i < |rel.fields| ==>
                        Readable(rel, row, i) &&
                        r.value[i] == Decode(rel.fields[i].ty, row[rel.fields[i].idx]).value
    ensures (exists i :: 0 <= i < |rel.fields| && rel.fields[i].idx >= |row|) ==> r.Err?
    ensures r.Err? ==> exists k :: 0 <= k < |rel.fields| && ReadField(rel.fields[k], row) == Err(r.error) &&
                                   forall j :: 0 <= j < k ==> Readable(rel, row, j)
  {
    var read := (f: Field) => ReadField(f, row);
    assert forall i :: 0 <= i < |rel.fields| ==> (read(rel.fields[i]).Ok? <==> Readable(rel, row, i));
    Collect(rel.fields, read)
  }

  /** The mapping over the returned rows in `all`: row by row, in order,
      and the first row that cannot be read aborts the whole result. */
  function All(rel: Relation, rows: seq<seq<Value>>): (r: Result<seq<Record>, DecodeError>)
    ensures r.Ok? <==> forall i :: 0 <= i < |rows| ==> FromRow(rel, rows[i]).Ok?
    ensures r.Ok? ==> |r.value| == |rows| &&
                      forall i :: 0 <= i < |rows| ==> r.value[i] == FromRow(rel, rows[i]).value
    ensures r.Err? ==> exists k :: 0 <= k < |rows| && FromRow(rel, rows[k]) == Err(r.error) &&
                                   forall j :: 0 <= j < k ==> FromRow(rel, rows[j]).Ok?
  {
    Collect(rows, (row: seq<Value>) => FromRow(rel, row))
  }

  /** A row whose every index is in range reads the same with any values
      appended to it. */
  lemma ExtraValuesIgnored(rel: Relation, row: seq<Value>, extra: seq<Value>)
    requires forall i :: 0 <= i < |rel.fields| ==> rel.fields[i].idx < |row|
    ensures FromRow(rel, row + extra) == FromRow(rel, row)
  {
    var f := (fd: Field) => ReadField(fd, row + extra);
    var g := (fd: Field) => ReadField(fd, row);
    forall i | 0 <= i < |rel.fields| ensures f(rel.fields[i]) == g(rel.fields[i]) {
      assert (row + extra)[rel.fields[i].idx] == row[rel.fields[i].idx];
    }
    CollectCongruent(rel.fields, f, g);
  }

  /** When field `i` is the first that cannot be read, the row fails with
      that field's error. */
  lemma FirstUnreadableField(rel: Relation, row: seq<Value>, i: nat)
    requires i < |rel.fields| && !Readable(rel, row, i)
    requires forall j :: 0 <= j < i ==> Readable(rel, row, j)
    ensures ReadField(rel.fields[i], row).Err?
    ensures FromRow(rel, row) == Err(ReadField(rel.fields[i], row).error)
  {
    var r := FromRow(rel, row);
    var k :| 0 <= k < |rel.fields| && ReadField(rel.fields[k], row) == Err(r.error) &&
             forall j :: 0 <= j < k ==> Readable(rel, row, j);
    forall j | 0 <= j < i ensures ReadField(rel.fields[j], row).Ok? {
      assert Readable(rel, row, j);
    }
    assert k == i;
  }

  /** A row too short for some field's index fails, and with that field's
      out-of-bounds error when every earlier field can be read. */
  lemma ShortRowFails(rel: Relation, row: seq<Value>, i: nat)
    requires i < |rel.fields| && rel.fields[i].idx >= |row|
    ensures FromRow(rel, row).Err?
    ensures (forall j :: 0 <= j < i ==> Readable(rel, row, j)) ==>
            FromRow(rel, row) == Err(IndexOutOfBounds(rel.fields[i].name, rel.fields[i].idx, |row|))
  {
    if forall j :: 0 <= j < i ==> Readable(rel, row, j) {
      FirstUnreadableField(rel, row, i);
    }
  }

  /** NULL in a non-optional field whose earlier fields can be read fails
      the row with `UnexpectedNull`; NULL in an optional field reads as
      `None`. */
  lemma NullField(rel: Relation, row: seq<Value>, i: nat)
    requires i < |rel.fields| && rel.fields[i].idx < |row| && row[rel.fields[i].idx] == Null
    requires forall j :: 0 <= j < i ==> Readable(rel, row, j)
    ensures rel.fields[i].ty != OptStrT ==>
            FromRow(rel, row) == Err(Conversion(rel.fields[i].name, UnexpectedNull))
    ensures rel.fields[i].ty == OptStrT && FromRow(rel, row).Ok? ==> FromRow(rel, row).value[i] == OptStrVal(None)
  {
    if rel.fields[i].ty != OptStrT {
      FirstUnreadableField(rel, row, i);
    }
  }

  /** Reading the parameter row bound for a well-typed record gives the
      record back when every field is read from its declaration position. */
  lemma RecordRoundTrip(rel: Relation, rec: Record)
    requires PositionalIndices(rel) && WellTyped(rel, rec)
    ensures FromRow(rel, ParamRow(rec)) == Ok(rec)
  {
    var row := ParamRow(rec);
    forall i | 0 <= i < |rel.fields|
      ensures Readable(rel, row, i) && Decode(rel.fields[i].ty, row[i]) == Ok(rec[i])
    {
      DecodeEncode(rec[i], rel.fields[i].ty);
    }
    var r := FromRow(rel, row);
    assert r.value == rec;
  }

  /** The other direction: a row that reads successfully, with fields at
      their declaration positions, is the parameter row of the record read
      from it, apart from the extra values `from_row` ignores. */
  lemma RowRoundTrip(rel: Relation, row: seq<Value>)
    requires PositionalIndices(rel) && FromRow(rel, row).Ok?
    ensures |rel.fields| <= |row|
    ensures ParamRow(FromRow(rel, row).value) == row[..|rel.fields|]
  {
    var n := |rel.fields|;
    if n > 0 {
      assert Readable(rel, row, n - 1);
    }
    var rec := FromRow(rel, row).value;
    forall i | 0 <= i < n ensures ParamRow(rec)[i] == row[i] {
      assert Readable(rel, row, i);
    }
  }

  /** Reading back the parameter rows built for a batch gives the batch back,
      same length and same order. */
  lemma BatchRoundTrip(rel: Relation, items: seq<Record>)
    requires PositionalIndices(rel)
    requires forall i :: 0 <= i < |items| ==> WellTyped(rel, items[i])
    ensures All(rel, ParamRows(items)) == Ok(items)
  {
    var rows := ParamRows(items);
    forall i | 0 <= i < |items| ensures FromRow(rel, rows[i]) == Ok(items[i]) {
      RecordRoundTrip(rel, items[i]);
    }
    var r := All(rel, rows);
    assert r.value == items;
  }

  /** The column order agrees everywhere: the INSERT lists field `i`'s
      column at position `i`, the parameter row binds field `i`'s value at
      position `i`, the SELECT projects field `i`'s column at position `i`,
      and field `i` is read from position `i` of a returned row. The last
      conjunct of the third clause only restates the `PositionalIndices`
      assumption; that decoding reads the bound values back in that order is
      the final clause. */
  lemma ColumnOrderAgreement(rel: Relation, rec: Record)
    requires ValidNames(Columns(rel)) && PositionalIndices(rel) && WellTyped(rel, rec)
    ensures ReadInsert(InsertText(rel), rel.table).Some?
    ensures ReadSelect(SelectText(rel), rel.table).Some?
    ensures var inserted := ReadInsert(InsertText(rel), rel.table).value.columns;
            var selected := ReadSelect(SelectText(rel), rel.table).value;
            |inserted| == |selected| == |ParamRow(rec)| == |rel.fields| &&
            forall i :: 0 <= i < |rel.fields| ==>
              inserted[i] == selected[i] == rel.fields[i].name &&
              ParamRow(rec)[i] == Encode(rec[i]) &&
              rel.fields[i].idx == i
    ensures FromRow(rel, ParamRow(rec)) == Ok(rec)
  {
    ReadInsertText(rel);
    ReadSelectText(rel);
    RecordRoundTrip(rel, rec);
  }
}
