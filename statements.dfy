/** The statement text and parameter lists that `insert_all` and `all`
    hand to the database client, and readers that take a statement apart
    again the way the database does (the column list and the number of
    `?` markers). */
module Statements {
  import opened Values
  import opened Schema

  /** The INSERT text of `insert_all` as written: the placeholder clause is
      three markers whatever the number of fields. */
  function InsertText(rel: Relation): string {
    "INSERT INTO " + rel.table + " (" + ConcatenatedColumns(rel) + ") VALUES (?, ?, ?)"
  }

  /** The SELECT text of `all`. */
  function SelectText(rel: Relation): string {
    "SELECT " + ConcatenatedColumns(rel) + " FROM " + rel.table
  }

  /** `n` markers separated by ", ". */
  function MarkList(n: nat): string {
    if n == 0 then "" else if n == 1 then "?" else "?, " + MarkList(n - 1)
  }

  /** One marker per field, parenthesised: what the placeholder clause is
      meant to be. */
  function Placeholders(n: nat): string {
    "(" + MarkList(n) + ")"
  }

  /** The INSERT text with one placeholder per field. */
  function InsertTextIntended(rel: Relation): string {
    "INSERT INTO " + rel.table + " (" + ConcatenatedColumns(rel) + ") VALUES " + Placeholders(|rel.fields|)
  }

  /** The number of `?` markers in `s`. */
  function CountMarks(s: string): nat {
    if s == [] then 0 else (if s[0] == '?' then 1 else 0) + CountMarks(s[1..])
  }

  /** What a reader of an INSERT statement learns: the columns it lists and
      how many parameters it takes. */
  datatype InsertShape = InsertShape(columns: seq<string>, placeholders: nat)

  /** Reads `INSERT INTO <table> (<columns>) VALUES <markers>`. */
  function ReadInsert(text: string, table: string): Option<InsertShape> {
    var head := "INSERT INTO " + table + " (";
    if |text| < |head| || text[..|head|] != head then None
    else
      var rest := text[|head|..];
      var k := IndexOf(rest, ')');
      var values := ") VALUES ";
      if k + |values| <= |rest| && rest[k..k + |values|] == values then
        Some(InsertShape(Split(rest[..k]), CountMarks(rest[k + |values|..])))
      else None
  }

  /** Reads `SELECT <columns> FROM <table>` into its projection. */
  function ReadSelect(text: string, table: string): Option<seq<string>> {
    var head := "SELECT ";
    var tail := " FROM " + table;
    if |head| + |tail| <= |text| && text[..|head|] == head && text[|text| - |tail|..] == tail
    then Some(Split(text[|head|..|text| - |tail|]))
    else None
  }

  /** The parameters one execution binds: the record's fields in declaration
      order (`$( &i.$ex ),*`). */
  function ParamRow(rec: Record): (r: seq<Value>)
    ensures |r| == |rec|
    ensures forall i :: 0 <= i < |rec| ==> r[i] == Encode(rec[i])
  {
    if rec == [] then [] else [Encode(rec[0])] + ParamRow(rec[1..])
  }

  /** One parameter row per item, in item order. */
  function ParamRows(items: seq<Record>): (r: seq<seq<Value>>)
    ensures |r| == |items|
    ensures forall i :: 0 <= i < |items| ==> r[i] == ParamRow(items[i])
  {
    if items == [] then [] else [ParamRow(items[0])] + ParamRows(items[1..])
  }

  /** `insert_all`: builds the INSERT text and, when the client prepared it,
      executes it once per item, in item order. A failed prepare yields no
      statement to iterate over, so nothing is executed. */
  method InsertAll(rel: Relation, items: seq<Record>, prepared: bool)
    returns (query: string, executions: seq<seq<Value>>)
    ensures query == InsertText(rel)
    ensures prepared ==> |executions| == |items|
    ensures !prepared ==> executions == []
    ensures forall i :: 0 <= i < |executions| ==> executions[i] == ParamRow(items[i])
    ensures executions == if prepared then ParamRows(items) else []
  {
    query := InsertText(rel);
    executions := [];
    if prepared {
      for i := 0 to |items|
        invariant |executions| == i
        invariant forall j :: 0 <= j < i ==> executions[j] == ParamRow(items[j])
      {
        executions := executions + [ParamRow(items[i])];
      }
    }
  }

  lemma {:induction false} CountMarksConcat(a: string, b: string)
    ensures CountMarks(a + b) == CountMarks(a) + CountMarks(b)
  {
    if a != [] {
      assert (a + b)[1..] == a[1..] + b;
      CountMarksConcat(a[1..], b);
    } else {
      assert a + b == b;
    }
  }

  lemma {:induction false} MarkListCount(n: nat)
    ensures CountMarks(MarkList(n)) == n
  {
    if n > 1 {
      MarkListCount(n - 1);
      CountMarksConcat("?, ", MarkList(n - 1));
    }
  }

  /** The intended placeholder clause has exactly one marker per field and is
      the hard-coded one for three fields. */
  lemma PlaceholdersCount(n: nat)
    ensures CountMarks(Placeholders(n)) == n
    ensures Placeholders(3) == "(?, ?, ?)"
  {
    MarkListCount(n);
    CountMarksConcat("(", MarkList(n));
    CountMarksConcat("(" + MarkList(n), ")");
  }

  /** Reading an INSERT statement however its marker clause is written. */
  lemma ReadInsertOf(table: string, clause: string, marks: string)
    requires forall i :: 0 <= i < |clause| ==> clause[i] != ')'
    ensures ReadInsert("INSERT INTO " + table + " (" + clause + ") VALUES " + marks, table)
         == Some(InsertShape(Split(clause), CountMarks(marks)))
  {
    var head := "INSERT INTO " + table + " (";
    var text := head + clause + ") VALUES " + marks;
    assert text == head + (clause + ") VALUES " + marks);
    var rest := text[|head|..];
    assert rest == clause + ") VALUES " + marks;
    assert rest[|clause|] == ')';
    assert forall i :: 0 <= i < |clause| ==> rest[i] == clause[i];
    var k := IndexOf(rest, ')');
    assert k == |clause|;
    assert rest[k..k + 9] == ") VALUES ";
    assert rest[..k] == clause;
    assert rest[k + 9..] == marks;
  }

  /** Reading a SELECT statement gives the split of its column clause. */
  lemma ReadSelectOf(table: string, clause: string)
    ensures ReadSelect("SELECT " + clause + " FROM " + table, table) == Some(Split(clause))
  {
    var text := "SELECT " + clause + " FROM " + table;
    assert text == "SELECT " + clause + (" FROM " + table);
  }

  /** The column clause of a relation whose names are valid. */
  lemma ClauseFacts(rel: Relation)
    requires ValidNames(Columns(rel))
    ensures Split(ConcatenatedColumns(rel)) == Columns(rel)
    ensures forall i :: 0 <= i < |ConcatenatedColumns(rel)| ==> ConcatenatedColumns(rel)[i] != ')'
  {
    ConcatenatedColumnsIsJoin(rel);
    SplitJoin(Columns(rel));
    JoinHasNoParen(Columns(rel));
  }

  /** The INSERT as written lists the fields' columns in declaration order
      and always takes three parameters; so its parameter count matches the
      field count exactly when there are three fields. */
  lemma ReadInsertText(rel: Relation)
    requires ValidNames(Columns(rel))
    ensures ReadInsert(InsertText(rel), rel.table) == Some(InsertShape(Columns(rel), 3))
    ensures ReadInsert(InsertText(rel), rel.table).value.placeholders == |rel.fields| <==> |rel.fields| == 3
  {
    ClauseFacts(rel);
    var clause := ConcatenatedColumns(rel);
    ReadInsertOf(rel.table, clause, "(?, ?, ?)");
    FixedValuesClause();
    var head := "INSERT INTO " + rel.table + " (" + clause;
    assert InsertText(rel) == head + ") VALUES (?, ?, ?)";
    assert head + ") VALUES (?, ?, ?)" == head + ") VALUES " + "(?, ?, ?)";
  }

  /** The hard-coded tail of the INSERT: the VALUES keyword and three
      markers (a separate step keeps the literal reasoning out of the
      lemmas that use it). */
  lemma FixedValuesClause()
    ensures ") VALUES (?, ?, ?)" == ") VALUES " + "(?, ?, ?)"
    ensures CountMarks("(?, ?, ?)") == 3
  {
  }

  /** The intended INSERT lists the same columns and takes one parameter
      per field. */
  lemma ReadInsertTextIntended(rel: Relation)
    requires ValidNames(Columns(rel))
    ensures ReadInsert(InsertTextIntended(rel), rel.table) == Some(InsertShape(Columns(rel), |rel.fields|))
  {
    ClauseFacts(rel);
    ReadInsertOf(rel.table, ConcatenatedColumns(rel), Placeholders(|rel.fields|));
    PlaceholdersCount(|rel.fields|);
  }

  /** The SELECT projects the fields' columns in declaration order. */
  lemma ReadSelectText(rel: Relation)
    requires ValidNames(Columns(rel))
    ensures ReadSelect(SelectText(rel), rel.table) == Some(Columns(rel))
  {
    ClauseFacts(rel);
    ReadSelectOf(rel.table, ConcatenatedColumns(rel));
  }

  /** The hard-coded INSERT coincides with the intended one exactly for
      three-field records. */
  lemma InsertTextsAgree(rel: Relation)
    ensures InsertText(rel) == InsertTextIntended(rel) <==> |rel.fields| == 3
  {
    var n := |rel.fields|;
    var head := "INSERT INTO " + rel.table + " (" + ConcatenatedColumns(rel);
    var prefix := head + ") VALUES ";
    FixedValuesClause();
    assert InsertText(rel) == head + ") VALUES (?, ?, ?)";
    assert InsertText(rel) == prefix + "(?, ?, ?)";
    assert InsertTextIntended(rel) == prefix + Placeholders(n);
    PlaceholdersCount(n);
    SameTail(prefix, "(?, ?, ?)", Placeholders(n));
  }

  /** Two strings with the same front are equal exactly when the rests are. */
  lemma SameTail(prefix: string, x: string, y: string)
    ensures prefix + x == prefix + y <==> x == y
  {
    if prefix + x == prefix + y {
      assert (prefix + x)[|prefix|..] == x;
      assert (prefix + y)[|prefix|..] == y;
    }
  }

  /** A two-field record: the hard-coded statement asks for three parameters
      while each execution binds two. */
  lemma TwoFieldInsertMismatch(rec: Record)
    requires |rec| == 2
    ensures var rel := Relation("t", [Field("a", 0, IntT), Field("b", 1, IntT)]);
            ReadInsert(InsertText(rel), rel.table) == Some(InsertShape(["a", "b"], 3)) &&
            |ParamRow(rec)| == 2
  {
    var rel := Relation("t", [Field("a", 0, IntT), Field("b", 1, IntT)]);
    var cols := ["a", "b"];
    assert Columns(rel) == cols;
    assert ValidName(cols[0]) && ValidName(cols[1]);
    ReadInsertText(rel);
  }
}
