/** Values exchanged with the database client, the semantic field types of a
    mapped record, and the conversions between the two (binding a field as a
    statement parameter, and `from_value` reading a field back). */
module Values {

  datatype Option<+T> = None | Some(value: T)

  datatype Result<+T, +E> = Ok(value: T) | Err(error: E)

  /** A database value as the client library passes it: an integer, a string
      or SQL NULL. */
  datatype Value = Int(n: int) | Str(s: string) | Null

  /** The semantic types a mapped field may have: `i32`, `String` and
      `Option<String>`. */
  datatype FieldType = IntT | StrT | OptStrT

  /** The value of one field of a record. */
  datatype FieldValue = IntVal(n: int) | StrVal(s: string) | OptStrVal(o: Option<string>)

  const I32Min: int := -0x8000_0000
  const I32Max: int := 0x7fff_ffff

  predicate InI32(n: int) {
    I32Min <= n <= I32Max
  }

  /** The field value is one a field of type `t` can hold. */
  predicate HasType(v: FieldValue, t: FieldType) {
    match t
    case IntT => v.IntVal? && InI32(v.n)
    case StrT => v.StrVal?
    case OptStrT => v.OptStrVal?
  }

  /** The parameter a field value is bound as: `None` becomes NULL, every
      other value its plain database counterpart. */
  function Encode(v: FieldValue): (r: Value)
    ensures r.Null? <==> v == OptStrVal(None)
    ensures v.IntVal? ==> r == Int(v.n)
    ensures v.StrVal? ==> r == Str(v.s)
    ensures v.OptStrVal? && v.o.Some? ==> r == Str(v.o.value)
  {
    match v
    case IntVal(n) => Int(n)
    case StrVal(s) => Str(s)
    case OptStrVal(o) => if o.Some? then Str(o.value) else Null
  }

  /** Why `from_value` could not produce a field value (the library panics). */
  datatype ConvError =
    | UnexpectedNull
    | TypeMismatch(expected: FieldType, got: Value)
    | OutOfRange(n: int)

  /** `from_value` at type `t`: NULL is accepted only by an optional field,
      an integer only by an `i32` field and only within its range, a string
      by a string or optional-string field. */
  function Decode(t: FieldType, v: Value): (r: Result<FieldValue, ConvError>)
    ensures r.Ok? ==> HasType(r.value, t) && Encode(r.value) == v
    ensures v.Null? ==> (r.Ok? <==> t == OptStrT)
    ensures v.Int? ==> (r.Ok? <==> t == IntT && InI32(v.n))
    ensures v.Str? ==> (r.Ok? <==> t != IntT)
  {
    match v
    case Null =>
      if t == OptStrT then Ok(OptStrVal(None)) else Err(UnexpectedNull)
    case Int(n) =>
      if t != IntT then Err(TypeMismatch(t, v))
      else if InI32(n) then Ok(IntVal(n))
      else Err(OutOfRange(n))
    case Str(s) =>
      match t
      case IntT => Err(TypeMismatch(t, v))
      case StrT => Ok(StrVal(s))
      case OptStrT => Ok(OptStrVal(Some(s)))
  }

  /** Decoding the parameter a well-typed field value is bound as gives that
      value back. */
  lemma DecodeEncode(v: FieldValue, t: FieldType)
    requires HasType(v, t)
    ensures Decode(t, Encode(v)) == Ok(v)
  {
  }

  /** An optional field reads NULL as `None` and a string as `Some`; any other
      field given NULL fails with `UnexpectedNull`. */
  lemma NullHandling(t: FieldType, s: string)
    ensures Decode(OptStrT, Null) == Ok(OptStrVal(None))
    ensures Decode(OptStrT, Str(s)) == Ok(OptStrVal(Some(s)))
    ensures t != OptStrT ==> Decode(t, Null) == Err(UnexpectedNull)
  {
  }

  /** Applies `f` to each element in order and stops at the first failure:
      what iterating, converting and unwrapping each element amounts to. */
  function Collect<T, U, E>(xs: seq<T>, f: T -> Result<U, E>): (r: Result<seq<U>, E>)
    ensures r.Ok? <==> forall i :: 0 <= i < |xs| ==> f(xs[i]).Ok?
    ensures r.Ok? ==> |r.value| == |xs| && forall i :: 0 <= i < |xs| ==> r.value[i] == f(xs[i]).value
    ensures r.Err? ==> exists k :: 0 <= k < |xs| && f(xs[k]) == Err(r.error) &&
                                   forall j :: 0 <= j < k ==> f(xs[j]).Ok?
  {
    if xs == [] then Ok([])
    else
      match f(xs[0])
      case Err(e) => Err(e)
      case Ok(v) =>
        match Collect(xs[1..], f)
        case Err(e) =>
          assert forall j :: 1 <= j < |xs| ==> xs[1..][j - 1] == xs[j];
          Err(e)
        case Ok(vs) => Ok([v] + vs)
  }

  /** `Collect` depends only on what `f` does on the elements. */
  lemma {:induction false} CollectCongruent<T, U, E>(xs: seq<T>, f: T -> Result<U, E>, g: T -> Result<U, E>)
    requires forall i :: 0 <= i < |xs| ==> f(xs[i]) == g(xs[i])
    ensures Collect(xs, f) == Collect(xs, g)
  {
    if xs != [] {
      assert forall i :: 0 <= i < |xs[1..]| ==> xs[1..][i] == xs[i + 1];
      CollectCongruent(xs[1..], f, g);
    }
  }
}
