/** The record descriptor that `new_orm!` is given: a table name and the
    fields in declaration order, each with its name, the row position it is
    read from and its type; and the column list and column clause derived
    from it. */
module Schema {
  import opened Values

  /** One `$idx, $ex: $ty` entry of the macro's field list. */
  datatype Field = Field(name: string, idx: nat, ty: FieldType)

  /** The table (`$table`) and the fields in declaration order. */
  datatype Relation = Relation(table: string, fields: seq<Field>)

  /** A record: one value per field, in declaration order. */
  type Record = seq<FieldValue>

  /** The record holds one value of the right type for each field. */
  predicate WellTyped(rel: Relation, rec: Record) {
    |rec| == |rel.fields| &&
    forall i :: 0 <= i < |rec| ==> HasType(rec[i], rel.fields[i].ty)
  }

  /** Every field is read from the row position equal to its declaration
      position, as in `0, customer_id`, `1, amount`, `2, account_name`. */
  predicate PositionalIndices(rel: Relation) {
    forall i :: 0 <= i < |rel.fields| ==> rel.fields[i].idx == i
  }

  /** A name as `stringify!` yields it for a Rust identifier: never empty
      and never containing a comma or a closing parenthesis. */
  predicate ValidName(s: string) {
    |s| > 0 && forall i :: 0 <= i < |s| ==> s[i] != ',' && s[i] != ')'
  }

  predicate ValidNames(cols: seq<string>) {
    forall i :: 0 <= i < |cols| ==> ValidName(cols[i])
  }

  /** The names of `fields`, in order. */
  function Names(fields: seq<Field>): (r: seq<string>)
    ensures |r| == |fields|
    ensures forall i :: 0 <= i < |fields| ==> r[i] == fields[i].name
  {
    if fields == [] then [] else [fields[0].name] + Names(fields[1..])
  }

  /** `columns()`: one name per field, in declaration order. */
  function Columns(rel: Relation): (r: seq<string>)
    ensures |r| == |rel.fields|
    ensures forall i :: 0 <= i < |rel.fields| ==> r[i] == rel.fields[i].name
  {
    Names(rel.fields)
  }

  /** The closure passed to `fold` in `concatenated_columns`: the first
      element is appended as it is, every later one after ", ". */
  function JoinStep(acc: string, el: string): string {
    if |acc| == 0 then acc + el else acc + ", " + el
  }

  /** `iter().fold(acc, JoinStep)` over a list of names. */
  function Fold(acc: string, cols: seq<string>): string
    decreases |cols|
  {
    if cols == [] then acc else Fold(JoinStep(acc, cols[0]), cols[1..])
  }

  /** `concatenated_columns()`: the fold of the column list from the empty
      string. */
  function ConcatenatedColumns(rel: Relation): string {
    Fold("", Columns(rel))
  }

  /** Reference definition of the column clause: the names separated by
      ", ", nothing before the first and nothing after the last. */
  function Join(cols: seq<string>): string {
    if |cols| == 0 then ""
    else if |cols| == 1 then cols[0]
    else cols[0] + ", " + Join(cols[1..])
  }

  /** The position of the first `c` in `s`, or `|s|` when there is none. */
  function IndexOf(s: string, c: char): (k: nat)
    ensures k <= |s|
    ensures forall i :: 0 <= i < k ==> s[i] != c
    ensures k < |s| ==> s[k] == c
  {
    if s == [] then 0 else if s[0] == c then 0 else 1 + IndexOf(s[1..], c)
  }

  /** Reads a column clause back into names: cut at each comma and skip the
      blank after it. */
  function Split(s: string): seq<string>
    decreases |s|
  {
    if s == [] then []
    else
      var k := IndexOf(s, ',');
      if k == |s| then [s]
      else [s[..k]] + Split(s[if k + 2 <= |s| then k + 2 else |s|..])
  }

  /** Once the accumulator is non-empty, every later name is appended after
      the separator. */
  lemma {:induction false} FoldFromNonEmpty(acc: string, cols: seq<string>)
    requires |acc| > 0
    ensures Fold(acc, cols) == if cols == [] then acc else acc + ", " + Join(cols)
    decreases |cols|
  {
    if cols != [] {
      var c, rest := cols[0], cols[1..];
      var next := acc + ", " + c;
      assert Fold(acc, cols) == Fold(next, rest);
      FoldFromNonEmpty(next, rest);
      if rest != [] {
        assert Join(cols) == c + ", " + Join(rest);
        assert next + ", " + Join(rest) == acc + ", " + (c + ", " + Join(rest));
      }
    }
  }

  /** Folding from the empty string gives the joined names when the first
      name is not empty. */
  lemma FoldIsJoin(cols: seq<string>)
    requires cols != [] ==> |cols[0]| > 0
    ensures Fold("", cols) == Join(cols)
  {
    if cols != [] {
      var c, rest := cols[0], cols[1..];
      assert JoinStep("", c) == c;
      assert Fold("", cols) == Fold(c, rest);
      FoldFromNonEmpty(c, rest);
    }
  }

  /** `concatenated_columns()` is the column names joined with ", ": empty
      for no fields, the single name for one, and never starting or ending
      with the separator. */
  lemma ConcatenatedColumnsIsJoin(rel: Relation)
    requires |rel.fields| > 0 ==> |rel.fields[0].name| > 0
    ensures ConcatenatedColumns(rel) == Join(Columns(rel))
    ensures |rel.fields| == 0 ==> ConcatenatedColumns(rel) == ""
    ensures |rel.fields| == 1 ==> ConcatenatedColumns(rel) == rel.fields[0].name
    ensures |rel.fields| > 0 ==>
      var clause, first, last := ConcatenatedColumns(rel), rel.fields[0].name, rel.fields[|rel.fields| - 1].name;
      |first| <= |clause| && clause[..|first|] == first &&
      |last| <= |clause| && clause[|clause| - |last|..] == last
  {
    FoldIsJoin(Columns(rel));
    if |rel.fields| > 0 {
      JoinEnds(Columns(rel));
    }
  }

  /** The joined clause begins with the first name and ends with the last. */
  lemma {:induction false} JoinEnds(cols: seq<string>)
    requires |cols| > 0
    ensures |cols[0]| <= |Join(cols)| && Join(cols)[..|cols[0]|] == cols[0]
    ensures |cols[|cols| - 1]| <= |Join(cols)|
    ensures Join(cols)[|Join(cols)| - |cols[|cols| - 1]|..] == cols[|cols| - 1]
  {
    if |cols| > 1 {
      var first, rest := cols[0], cols[1..];
      var last := cols[|cols| - 1];
      assert last == rest[|rest| - 1];
      JoinEnds(rest);
      var tail := ", " + Join(rest);
      assert Join(cols) == first + tail;
      SliceEnds(first, tail, |last|);
    }
  }

  /** The front of `x + y` is `x`, and its last `n <= |y|` elements are
      those of `y`. */
  lemma SliceEnds(x: string, y: string, n: nat)
    requires n <= |y|
    ensures (x + y)[..|x|] == x
    ensures (x + y)[|x + y| - n..] == y[|y| - n..]
  {
  }

  lemma IndexOfAbsent(s: string, c: char)
    requires forall i :: 0 <= i < |s| ==> s[i] != c
    ensures IndexOf(s, c) == |s|
  {
  }

  /** In `a + ", " + t` the first comma is the one after `a` when `a` has none. */
  lemma IndexOfAfterName(a: string, t: string)
    requires ValidName(a)
    ensures IndexOf(a + ", " + t, ',') == |a|
  {
    var s := a + ", " + t;
    var k := IndexOf(s, ',');
    assert s[|a|] == ',';
    assert forall i :: 0 <= i < |a| ==> s[i] == a[i];
  }

  /** Splitting a name followed by the separator and a non-empty tail
      yields the name, then the split of the tail. */
  lemma SplitCons(a: string, t: string)
    requires ValidName(a) && |t| > 0
    ensures Split(a + ", " + t) == [a] + Split(t)
  {
    var s := a + ", " + t;
    IndexOfAfterName(a, t);
    var k := IndexOf(s, ',');
    assert k == |a| && k + 2 <= |s|;
    assert Split(s) == [s[..k]] + Split(s[k + 2..]);
    assert s[..k] == a;
    assert s[k + 2..] == t;
  }

  /** Splitting the joined clause gives the names back. */
  lemma {:induction false} SplitJoin(cols: seq<string>)
    requires ValidNames(cols)
    ensures Split(Join(cols)) == cols
  {
    if |cols| == 1 {
      IndexOfAbsent(cols[0], ',');
    } else if |cols| > 1 {
      JoinEnds(cols[1..]);
      SplitCons(cols[0], Join(cols[1..]));
      SplitJoin(cols[1..]);
      assert cols == [cols[0]] + cols[1..];
    }
  }

  /** The column clause has no closing parenthesis, so a reader can find its
      end in a statement. */
  lemma {:induction false} JoinHasNoParen(cols: seq<string>)
    requires ValidNames(cols)
    ensures forall i :: 0 <= i < |Join(cols)| ==> Join(cols)[i] != ')'
  {
    if |cols| > 1 {
      JoinHasNoParen(cols[1..]);
      var rest := Join(cols[1..]);
      assert Join(cols) == cols[0] + ", " + rest;
      forall i | 0 <= i < |Join(cols)| ensures Join(cols)[i] != ')' {
        if i < |cols[0]| {
          assert Join(cols)[i] == cols[0][i];
        } else if i >= |cols[0]| + 2 {
          assert Join(cols)[i] == rest[i - |cols[0]| - 2];
        }
      }
    }
  }
}
