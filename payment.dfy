/** The `Payment` record the program declares through `new_orm!`, and what
    the generic model says about it. */
module Payment {
  import opened Values
  import opened Schema
  import opened Statements
  import opened RowCodec

  /** `new_orm!(Payment, "tmp.payment", [0, customer_id: i32, 1, amount: i32,
      2, account_name: Option<String>,])`. */
  const PaymentRel: Relation := Relation("tmp.payment", [
    Field("customer_id", 0, IntT),
    Field("amount", 1, IntT),
    Field("account_name", 2, OptStrT)
  ])

  /** `Payment { customer_id, amount, account_name }` as a record. */
  function MakePayment(customerId: int, amount: int, accountName: Option<string>): Record {
    [IntVal(customerId), IntVal(amount), OptStrVal(accountName)]
  }

  /** The five payments the program writes and reads back. */
  const Payments: seq<Record> := [
    MakePayment(1, 2, None),
    MakePayment(3, 4, Some("foo")),
    MakePayment(5, 6, None),
    MakePayment(7, 8, None),
    MakePayment(9, 10, Some("bar"))
  ]

  lemma PaymentNames()
    ensures Columns(PaymentRel) == ["customer_id", "amount", "account_name"]
    ensures ValidNames(Columns(PaymentRel))
  {
    var cols := Columns(PaymentRel);
    assert cols == ["customer_id", "amount", "account_name"];
    assert ValidName(cols[0]) && ValidName(cols[1]) && ValidName(cols[2]);
  }

  lemma PaymentClause()
    ensures ConcatenatedColumns(PaymentRel) == "customer_id, amount, account_name"
  {
    PaymentNames();
    ConcatenatedColumnsIsJoin(PaymentRel);
    JoinOfThree(Columns(PaymentRel));
    ClauseLiteral();
  }

  lemma JoinOfThree(cols: seq<string>)
    requires |cols| == 3
    ensures Join(cols) == cols[0] + ", " + cols[1] + ", " + cols[2]
  {
    assert Join(cols[2..]) == cols[2];
    assert Join(cols[1..]) == cols[1] + ", " + cols[2];
  }

  lemma ClauseLiteral()
    ensures "customer_id" + ", " + "amount" + ", " + "account_name" == "customer_id, amount, account_name"
  {
    assert "customer_id" + ", " == "customer_id, ";
    assert "customer_id, " + "amount" == "customer_id, amount";
    assert "customer_id, amount" + ", " == "customer_id, amount, ";
  }

  /** The INSERT for `Payment`; its three fields match the three hard-coded
      placeholders, so it is also the intended statement. */
  lemma PaymentInsertText()
    ensures InsertText(PaymentRel)
         == "INSERT INTO tmp.payment (customer_id, amount, account_name) VALUES (?, ?, ?)"
    ensures InsertText(PaymentRel) == InsertTextIntended(PaymentRel)
  {
    PaymentClause();
    InsertLiteral();
    InsertTextsAgree(PaymentRel);
  }

  /** The SELECT for `Payment`. */
  lemma PaymentSelectText()
    ensures SelectText(PaymentRel) == "SELECT customer_id, amount, account_name FROM tmp.payment"
  {
    PaymentClause();
    SelectLiteral();
  }

  /* The literal concatenations below are proved one join at a time: the
     solver handles each step cheaply but not their composition in one goal. */

  lemma InsertLiteral()
    ensures "INSERT INTO " + "tmp.payment" + " (" + "customer_id, amount, account_name" + ") VALUES (?, ?, ?)"
         == "INSERT INTO tmp.payment (customer_id, amount, account_name) VALUES (?, ?, ?)"
  {
    InsertHeadLiteral();
    InsertClauseLiteral();
    InsertTailLiteral();
  }

  lemma InsertHeadLiteral()
    ensures "INSERT INTO " + "tmp.payment" + " (" == "INSERT INTO tmp.payment ("
  {
    assert "INSERT INTO " + "tmp.payment" == "INSERT INTO tmp.payment";
  }

  lemma InsertClauseLiteral()
    ensures "INSERT INTO tmp.payment (" + "customer_id, amount, account_name"
         == "INSERT INTO tmp.payment (customer_id, amount, account_name"
  {
  }

  lemma InsertTailLiteral()
    ensures "INSERT INTO tmp.payment (customer_id, amount, account_name" + ") VALUES (?, ?, ?)"
         == "INSERT INTO tmp.payment (customer_id, amount, account_name) VALUES (?, ?, ?)"
  {
  }

  lemma SelectLiteral()
    ensures "SELECT " + "customer_id, amount, account_name" + " FROM " + "tmp.payment"
         == "SELECT customer_id, amount, account_name FROM tmp.payment"
  {
    SelectHeadLiteral();
    SelectTailLiteral();
  }

  lemma SelectHeadLiteral()
    ensures "SELECT " + "customer_id, amount, account_name" + " FROM "
         == "SELECT customer_id, amount, account_name FROM "
  {
    SelectClauseLiteral();
  }

  lemma SelectClauseLiteral()
    ensures "SELECT " + "customer_id, amount, account_name" == "SELECT customer_id, amount, account_name"
  {
  }

  lemma SelectTailLiteral()
    ensures "SELECT customer_id, amount, account_name FROM " + "tmp.payment"
         == "SELECT customer_id, amount, account_name FROM tmp.payment"
  {
  }

  /** A payment whose amounts fit in `i32` is a well-typed record, and it is
      bound as its three values in declaration order. */
  lemma PaymentRecord(c: int, a: int, name: Option<string>)
    requires InI32(c) && InI32(a)
    ensures WellTyped(PaymentRel, MakePayment(c, a, name))
    ensures ParamRow(MakePayment(c, a, name)) == [Int(c), Int(a), if name.Some? then Str(name.value) else Null]
  {
  }

  /** The five payments are bound as these five parameter rows, in order. */
  lemma PaymentParamRows()
    ensures ParamRows(Payments) == [
      [Int(1), Int(2), Null],
      [Int(3), Int(4), Str("foo")],
      [Int(5), Int(6), Null],
      [Int(7), Int(8), Null],
      [Int(9), Int(10), Str("bar")]
    ]
  {
    PaymentRecord(1, 2, None);
    PaymentRecord(3, 4, Some("foo"));
    PaymentRecord(5, 6, None);
    PaymentRecord(7, 8, None);
    PaymentRecord(9, 10, Some("bar"));
  }

  /** Writing the five payments and reading the rows back gives the same
      five payments, in the same order. */
  lemma PaymentsRoundTrip()
    ensures All(PaymentRel, ParamRows(Payments)) == Ok(Payments)
  {
    PaymentRecord(1, 2, None);
    PaymentRecord(3, 4, Some("foo"));
    PaymentRecord(5, 6, None);
    PaymentRecord(7, 8, None);
    PaymentRecord(9, 10, Some("bar"));
    BatchRoundTrip(PaymentRel, Payments);
  }

  /** Rows as the database might return them for `Payment`: NULL in the
      optional column reads as `None`, and a trailing extra value is ignored. */
  lemma PaymentRowsAccepted(c: int, a: int)
    requires InI32(c) && InI32(a)
    ensures FromRow(PaymentRel, [Int(c), Int(a), Null]) == Ok(MakePayment(c, a, None))
    ensures FromRow(PaymentRel, [Int(c), Int(a), Str("x"), Int(0)]) == Ok(MakePayment(c, a, Some("x")))
  {
    PaymentRecord(c, a, None);
    RecordRoundTrip(PaymentRel, MakePayment(c, a, None));
    PaymentRecord(c, a, Some("x"));
    RecordRoundTrip(PaymentRel, MakePayment(c, a, Some("x")));
    ExtraValuesIgnored(PaymentRel, [Int(c), Int(a), Str("x")], [Int(0)]);
    assert [Int(c), Int(a), Str("x")] + [Int(0)] == [Int(c), Int(a), Str("x"), Int(0)];
  }

  /** NULL in a non-optional column and a missing column both fail, naming
      the field. */
  lemma PaymentRowsRejected(c: int, a: int)
    requires InI32(c) && InI32(a)
    ensures FromRow(PaymentRel, [Int(c), Null, Null]) == Err(Conversion("amount", UnexpectedNull))
    ensures FromRow(PaymentRel, [Int(c), Int(a)]) == Err(IndexOutOfBounds("account_name", 2, 2))
  {
    assert Readable(PaymentRel, [Int(c), Null, Null], 0);
    NullField(PaymentRel, [Int(c), Null, Null], 1);
    assert Readable(PaymentRel, [Int(c), Int(a)], 0) && Readable(PaymentRel, [Int(c), Int(a)], 1);
    ShortRowFails(PaymentRel, [Int(c), Int(a)], 2);
  }
}
