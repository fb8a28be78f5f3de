/** What a boolean GoogleSQL expression over columns and literals means: values, rows, three-valued logic. */
module GoogleSql {
  import opened Wrappers
  import opened Text

  // ---------------------------------------------------------------------------------------------------
  // Values, rows and three-valued logic
  // ---------------------------------------------------------------------------------------------------

  /** Dates are counted in days and points in time in nanoseconds from the start of 1970, times of day in
   nanoseconds from midnight. */
  datatype Value =
    | BoolValue(truth: bool)
    | IntValue(number: int)
    | StringValue(text: string)
    | BytesValue(bytes: seq<Byte>)
    | DecimalValue(unscaled: int, scale: nat)
    | DateValue(days: int)
    | TimeValue(nanos: int)
    | DatetimeValue(nanos: int)
    | TimestampValue(nanos: int)
    | StructValue(fields: seq<NamedCell>)
    | OtherValue(id: int)

  datatype NamedCell = NamedCell(name: string, cell: Option<Value>)

  type Row = seq<NamedCell>

  /** The cell a path of field names denotes; a null or missing step makes it null. */
  function Lookup(fields: Row, path: seq<string>): Option<Value>
    requires path != []
    decreases |path|, |fields|
  {
    if fields == [] then None
    else if fields[0].name != path[0] then Lookup(fields[1..], path)
    else if |path| == 1 then fields[0].cell
    else if fields[0].cell.Some? && fields[0].cell.value.StructValue? then
      Lookup(fields[0].cell.value.fields, path[1..])
    else None
  }

  datatype Truth = Yes | No | Unknown

  function And3(a: Truth, b: Truth): Truth {
    if a == No || b == No then No else if a == Unknown || b == Unknown then Unknown else Yes
  }

  function Or3(a: Truth, b: Truth): Truth {
    if a == Yes || b == Yes then Yes else if a == Unknown || b == Unknown then Unknown else No
  }

  function Not3(a: Truth): Truth {
    match a case Yes => No case No => Yes case Unknown => Unknown
  }

  function Of(b: bool): Truth { if b then Yes else No }

  datatype Comparison = Eq | NotEq | Lt | LtEq | Gt | GtEq

  predicate Less(a: Value, b: Value) {
    match (a, b)
    case (BoolValue(x), BoolValue(y)) => !x && y
    case (IntValue(x), IntValue(y)) => x < y
    case (StringValue(x), StringValue(y)) => LessText(x, y)
    case (BytesValue(x), BytesValue(y)) => Lexicographic(LessByte, x, y)
    case (DecimalValue(x, p), DecimalValue(y, q)) => x * Power10(q) < y * Power10(p)
    case (DateValue(x), DateValue(y)) => x < y
    case (TimeValue(x), TimeValue(y)) => x < y
    case (DatetimeValue(x), DatetimeValue(y)) => x < y
    case (TimestampValue(x), TimestampValue(y)) => x < y
    case _ => false
  }

  /** Decimals are equal as numbers, whatever their scales. */
  predicate Same(a: Value, b: Value) {
    match (a, b)
    case (DecimalValue(x, p), DecimalValue(y, q)) => x * Power10(q) == y * Power10(p)
    case _ => a == b
  }

  predicate Holds(op: Comparison, a: Value, b: Value) {
    match op
    case Eq => Same(a, b)
    case NotEq => !Same(a, b)
    case Lt => Less(a, b)
    case LtEq => !Less(b, a)
    case Gt => Less(b, a)
    case GtEq => !Less(a, b)
  }

  predicate OneKind(a: Value, b: Value) {
    match a
    case BoolValue(_) => b.BoolValue?
    case IntValue(_) => b.IntValue?
    case StringValue(_) => b.StringValue?
    case BytesValue(_) => b.BytesValue?
    case DecimalValue(_, _) => b.DecimalValue?
    case DateValue(_) => b.DateValue?
    case TimeValue(_) => b.TimeValue?
    case DatetimeValue(_) => b.DatetimeValue?
    case TimestampValue(_) => b.TimestampValue?
    case _ => false
  }

  /** Of two values of one kind one is less or they are the same, and never both. */
  lemma ValuesAreOrdered(a: Value, b: Value)
    requires OneKind(a, b)
    ensures Less(a, b) || Less(b, a) || Same(a, b)
    ensures !(Less(a, b) && Less(b, a)) && !(Less(a, b) && Same(a, b)) && !(Less(b, a) && Same(a, b))
  {
    if a.StringValue? {
      LexicographicIsTrichotomous(LessChar, a.text, b.text);
    } else if a.BytesValue? {
      LexicographicIsTrichotomous(LessByte, a.bytes, b.bytes);
    }
  }

  function Compare(op: Comparison, a: Option<Value>, b: Option<Value>): Truth {
    if a.None? || b.None? then Unknown else Of(Holds(op, a.value, b.value))
  }

  /** `cell IN (items)`: the three-valued disjunction of the equalities. */
  function Among(cell: Option<Value>, items: seq<Option<Value>>): Truth {
    if items == [] then No else Or3(Compare(Eq, cell, items[0]), Among(cell, items[1..]))
  }

  function Within(cell: Option<Value>, low: Option<Value>, high: Option<Value>): Truth {
    And3(Compare(GtEq, cell, low), Compare(LtEq, cell, high))
  }

  function Negated(negated: bool, t: Truth): Truth { if negated then Not3(t) else t }

  // ---------------------------------------------------------------------------------------------------
  // Trees
  // ---------------------------------------------------------------------------------------------------

  datatype SqlExpr =
    | AndExpr(left: SqlExpr, right: SqlExpr)
    | OrExpr(left: SqlExpr, right: SqlExpr)
    | NotExpr(child: SqlExpr)
    | CompareExpr(path: seq<string>, op: Comparison, value: Value)
    | NullExpr(path: seq<string>, negated: bool)
    | InExpr(path: seq<string>, values: seq<Value>, negated: bool)
    | BetweenExpr(path: seq<string>, low: Value, high: Value, negated: bool)

  function Known(values: seq<Value>): seq<Option<Value>> {
    if values == [] then [] else [Some(values[0])] + Known(values[1..])
  }

  function CellAt(row: Row, path: seq<string>): Option<Value> {
    if path == [] then None else Lookup(row, path)
  }

  function Evaluate(row: Row, e: SqlExpr): Truth {
    match e
    case AndExpr(l, r) => And3(Evaluate(row, l), Evaluate(row, r))
    case OrExpr(l, r) => Or3(Evaluate(row, l), Evaluate(row, r))
    case NotExpr(c) => Not3(Evaluate(row, c))
    case CompareExpr(path, op, value) => Compare(op, CellAt(row, path), Some(value))
    case NullExpr(path, negated) => Negated(negated, Of(CellAt(row, path).None?))
    case InExpr(path, values, negated) => Negated(negated, Among(CellAt(row, path), Known(values)))
    case BetweenExpr(path, low, high, negated) =>
      Negated(negated, Within(CellAt(row, path), Some(low), Some(high)))
  }
}
