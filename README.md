# A verified model of the `new_orm!` record-to-table mapping

The program declares a record type with the `new_orm!` macro: a struct name, a
table name, and a list of fields, each given as a row position, a name and a
type. The macro generates the struct and six associated functions:

- `table()` returns the table name;
- `from_row` builds a record from a row, reading each field from `row[idx]`
  through the client library's `from_value`;
- `columns()` returns the field names;
- `concatenated_columns()` joins those names with `", "`;
- `insert_all` runs `INSERT INTO <table> (<columns>) VALUES (?, ?, ?)` once per
  item, binding the item's fields in declaration order;
- `all` runs `SELECT <columns> FROM <table>` and turns each returned row into a
  record with `from_row`.

The model does not expand the macro. It uses a runtime descriptor instead:
`Schema.Relation`, which holds a table name and the fields in declaration
order. Each field (`Schema.Field`) has a name, a row index and a type (`i32`,
`String`, `Option<String>`). Generic functions work over that descriptor. A
small `Values.Value` datatype (integer, string, NULL) stands for the client
library's value type. `from_value` is replaced by a total conversion,
`Values.Decode`, which returns an error wherever the library would panic.

The modules follow the program's parts:

- `Values`: values, field types, field values, binding (`Encode`),
  conversion (`Decode`), and `Collect`, which maps a function over a
  sequence and stops at the first failure (this is what converting and
  unwrapping element by element does).
- `Schema`: the descriptor, `columns()`, and the fold in
  `concatenated_columns()`. It also holds a reference `Join` and its inverse
  `Split`.
- `Statements`: the INSERT and SELECT text, readers that take a statement
  back apart, the parameter rows, and the `insert_all` loop as a method.
- `RowCodec`: `from_row`, the row mapping in `all`, the round trips, and the
  agreement of column order across all four artefacts.
- `Payment`: the `Payment` declaration and the five payments the program
  writes and reads back.

The central property is `RowCodec.ColumnOrderAgreement`. Four things use the
same order, position by position:

- the columns a reader finds in the INSERT text;
- the values bound in each parameter row;
- the columns projected by the SELECT text;
- the row positions `from_row` reads.

The code does less checking than a careful mapper would, and the model keeps
it that way:

- There is no row-length (arity) check: a row too short for some field's
  index fails (indexing panics), and extra trailing values are ignored.
- No descriptor validation happens. Non-contiguous or duplicate indices are
  accepted, so the round-trip lemmas require `PositionalIndices`.
- The placeholder clause is fixed at three markers (see Findings).

## Model

| member | source | states |
|---|---|---|
| `Values.Encode` | src/main.rs:69-71 | A field bound as a parameter becomes NULL exactly when it is `None`; an integer is bound as the same integer, and a `String` or `Some(s)` as that same string |
| `Values.Decode` | src/main.rs:33 | `from_value` at a field type: NULL succeeds only for an optional field, an integer only for an `i32` field within range, a string for the string types; a success has the field's type and binds back to the same value |
| `Values.DecodeEncode` | src/main.rs:33 | Converting the parameter that a well-typed field value is bound as gives that value back |
| `Values.NullHandling` | src/main.rs:104 | `Option<String>` reads NULL as `None` and a string as `Some`; a non-optional field given NULL fails with `UnexpectedNull` |
| `Values.Collect` | src/main.rs:85-87 | Mapping a fallible conversion over a sequence succeeds exactly when every element converts; the result keeps length and order; a failure carries the error of the first element that fails |
| `Schema.Columns` | src/main.rs:38-42 | One column name per field, and the i-th name is the i-th declared field's name |
| `Schema.JoinStep` | src/main.rs:46-51 | The fold's closure: the first name is appended as it is, every later one after `", "`. No contract of its own; its meaning is stated by `Schema.FoldFromNonEmpty` and `Schema.FoldIsJoin` |
| `Schema.Fold` | src/main.rs:45-52 | `iter().fold` of the closure over the names. No contract of its own; `Schema.FoldFromNonEmpty` and `Schema.FoldIsJoin` relate it to `Schema.Join` |
| `Schema.ConcatenatedColumns` | src/main.rs:44-53 | `concatenated_columns()`. No contract of its own; `Schema.ConcatenatedColumnsIsJoin` states what it yields and `Schema.SplitJoin` that the names can be read back from it |
| `Schema.FoldFromNonEmpty` | src/main.rs:44-53 | Once the fold's accumulator is non-empty, the result is the accumulator, then `", "` and the joined remaining names (or the accumulator alone when none remain) |
| `Schema.FoldIsJoin` | src/main.rs:44-53 | Folding the names from the empty string gives the names joined with `", "` whenever the first name is non-empty |
| `Schema.ConcatenatedColumnsIsJoin` | src/main.rs:44-53 | When the first name is non-empty (every Rust identifier is), `concatenated_columns()` is the names joined with `", "`: empty for no fields, the name itself for one field, and it begins with the first name and ends with the last |
| `Schema.SplitJoin` | src/main.rs:44-53 | Splitting the joined clause at its separators gives back exactly the names, in order |
| `Statements.InsertText` | src/main.rs:60-64 | The INSERT text as written. No contract of its own; `Statements.ReadInsertText` states what a reader finds in it and `Statements.InsertTextsAgree` when it equals the intended text |
| `Statements.SelectText` | src/main.rs:77-80 | The SELECT text. No contract of its own; `Statements.ReadSelectText` states what a reader finds in it |
| `Statements.ParamRow` | src/main.rs:69-71 | One parameter per field, and the i-th parameter is the i-th field's value as bound |
| `Statements.ParamRows` | src/main.rs:67-71 | One parameter row per item; the i-th row belongs to the i-th item |
| `Statements.InsertAll` | src/main.rs:55-74 | Returns the INSERT text. If the statement was prepared, it executes once per item, in item order, binding that item's parameter row; if preparing failed, nothing is executed |
| `Statements.PlaceholdersCount` | src/main.rs:64 | The intended placeholder clause has exactly n markers, and for three fields it is the literal `(?, ?, ?)` |
| `Statements.ReadInsertText` | src/main.rs:60-64 | Reading the INSERT text as written gives the declared columns in order and three parameters; the parameter count equals the field count exactly when there are three fields |
| `Statements.ReadInsertTextIntended` | src/main.rs:60-64 | The corrected INSERT text lists the same columns and takes one parameter per field |
| `Statements.ReadSelectText` | src/main.rs:77-80 | Reading the SELECT text gives the declared columns in order, the same list as the INSERT |
| `Statements.InsertTextsAgree` | src/main.rs:64 | The as-written INSERT equals the corrected one exactly when the record has three fields |
| `Statements.TwoFieldInsertMismatch` | src/main.rs:64 | For a two-field record the INSERT lists two columns but takes three parameters, while each execution binds two |
| `RowCodec.ReadField` | src/main.rs:33 | Reading one field succeeds exactly when its index is inside the row and `from_value` converts the value there, and then gives that conversion; an index past the end fails with an out-of-bounds error naming the field, and a failed conversion fails with that conversion's error, naming the field |
| `RowCodec.FromRow` | src/main.rs:31-35 | `from_row` succeeds exactly when every field's index is inside the row and its value converts; field i then holds the conversion of `row[idx_i]`; the record is well typed; any index past the end makes it fail; a failure carries the first failing field's error |
| `RowCodec.All` | src/main.rs:82-89 | The mapping in `all` succeeds exactly when every row decodes; the result has the rows' length and order, and the i-th record is `from_row` of the i-th row; a failure is the first failing row's error |
| `RowCodec.ExtraValuesIgnored` | src/main.rs:33 | A row whose indices are all in range decodes the same when values are appended to it |
| `RowCodec.FirstUnreadableField` | src/main.rs:32-34 | When field i is the first that cannot be read, the row fails with that field's error |
| `RowCodec.ShortRowFails` | src/main.rs:33 | A row shorter than some field's index fails, with that field's out-of-bounds error when every earlier field reads |
| `RowCodec.NullField` | src/main.rs:31-35 | NULL for a non-optional field, after readable earlier fields, fails the row with `UnexpectedNull` for that field; NULL for an optional field reads as `None` |
| `RowCodec.RecordRoundTrip` | src/main.rs:31-35 | With indices equal to declaration positions, decoding a well-typed record's parameter row gives back the record |
| `RowCodec.RowRoundTrip` | src/main.rs:31-35 | With indices equal to declaration positions, a row that decodes is the decoded record's parameter row, up to the ignored trailing values |
| `RowCodec.BatchRoundTrip` | src/main.rs:121-136 | Decoding the parameter rows of a batch of well-typed records gives back the batch, element by element and in order |
| `RowCodec.ColumnOrderAgreement` | src/main.rs:60-87 | The INSERT's columns, the SELECT's columns, the parameter row and the decoded positions all put field i at position i, and decoding the parameter row gives the record |
| `Payment.PaymentRel` | src/main.rs:98-106 | The `Payment` declaration as a descriptor. No contract of its own; `Payment.PaymentNames`, `Payment.PaymentInsertText` and `Payment.PaymentSelectText` state what it yields |
| `Payment.Payments` | src/main.rs:121-127 | The five payments `main` writes. No contract of its own; `Payment.PaymentParamRows` and `Payment.PaymentsRoundTrip` state how they are bound and read back |
| `Payment.PaymentNames` | src/main.rs:98-106 | `Payment`'s columns are `customer_id`, `amount`, `account_name`, all valid names |
| `Payment.PaymentClause` | src/main.rs:98-106 | `Payment`'s column clause is `customer_id, amount, account_name` |
| `Payment.PaymentInsertText` | src/main.rs:60-64 | `Payment`'s INSERT text is `INSERT INTO tmp.payment (customer_id, amount, account_name) VALUES (?, ?, ?)`, which is also the intended statement |
| `Payment.PaymentSelectText` | src/main.rs:77-80 | `Payment`'s SELECT text is `SELECT customer_id, amount, account_name FROM tmp.payment` |
| `Payment.PaymentRecord` | src/main.rs:98-106 | A payment whose numbers fit in `i32` is a well-typed record, bound as its three values in declaration order |
| `Payment.PaymentParamRows` | src/main.rs:121-129 | The five payments are bound as exactly these five parameter rows, in order: `[1, 2, NULL]`, `[3, 4, "foo"]`, `[5, 6, NULL]`, `[7, 8, NULL]`, `[9, 10, "bar"]` |
| `Payment.PaymentsRoundTrip` | src/main.rs:121-136 | Decoding the five payments' parameter rows gives the same five payments in the same order |
| `Payment.PaymentRowsAccepted` | src/main.rs:31-35 | A row with NULL in `account_name` reads as `None`, and a row with one trailing extra value reads as if that value were absent |
| `Payment.PaymentRowsRejected` | src/main.rs:31-35 | NULL for `amount` fails with `UnexpectedNull` on `amount`; a two-value row fails indexing `account_name` at position 2 |

## Left out

- The database client: `MyOpts`, `MyPool::new`, `prepare`, `execute` and
  result iteration are network I/O through a library that is not part of this
  model. `InsertAll` gets the outcome of `prepare` as a parameter. The model of
  `all` starts from the rows the client returned.
- The panics from `unwrap` on client errors: `execute(...).unwrap()` in
  `insert_all`, and the row and outer `unwrap` in `all` when the client reports
  an error. No client errors are modelled, so these panics are not either.
- `from_value`: its internals belong to the client library. `Values.Decode`
  stands in for it. It treats an out-of-range integer for an `i32` field, and
  any value of the wrong kind, as failure. The library's textual conversions
  (for example, a string of digits read into an integer field) are not
  modelled.
- `table()`: it returns the descriptor's `table` field, so it has no separate
  member.
- The macro itself (`macro_rules!`, `stringify!`, the derived `Debug` and
  `PartialEq`): the descriptor replaces it, and records are Dafny values
  compared with Dafny equality.
- The `println!` logging and the temporary-table DDL in `main`.
- The row order the database returns without `ORDER BY`: the code does not
  control it. The round trips are stated on the in-memory parameter rows and
  decoding only.
- Schema validation and a configurable placeholder token: the code has
  neither.

## Findings

| source | as written | input that shows it | evidently intended | confidence | as-written member | corrected member |
|---|---|---|---|---|---|---|
| src/main.rs:64 | The INSERT text ends with the constant `VALUES (?, ?, ?)`, whatever the number of fields | `new_orm!(Pair, "t", [0, a: i32, 1, b: i32,])` gives `INSERT INTO t (a, b) VALUES (?, ?, ?)`; each execution binds two parameters against three markers | one `?` per field, in the same order as the column list | not executed | `Statements.InsertText`, shown by `Statements.TwoFieldInsertMismatch` and `Statements.ReadInsertText` | `Statements.InsertTextIntended`, proved by `Statements.ReadInsertTextIntended` |

`Statements.InsertAll` emits the INSERT text as written, because it models the
code. `Statements.InsertTextsAgree` proves that the two texts are identical
exactly when the record has three fields. Every record the program declares
(`Payment`) has three fields, so every statement proved about `Payment` holds
for both texts.
