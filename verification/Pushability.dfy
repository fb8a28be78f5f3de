/** Which filters are translated at all (pushdown.rs), by what their columns denote and what their literals are. */
module Pushability {
  import opened Wrappers
  import opened Text
  import opened GoogleSql
  import opened SqlSyntax
  import opened Calendar
  import opened Pushdown
  import opened Columns
  import opened Translation

  // ---------------------------------------------------------------------------------------------------
  // Literals of a type
  // ---------------------------------------------------------------------------------------------------

  /** A character that a string literal can hold, escaped or not: no control character but three. */
  predicate Writable(c: char) {
    || c == '\n' || c == '\r' || c == '\t'
    || 0x20 <= (c as int) < 0x7F || (c as int) >= 0xA0
  }

  /** Years the date library represents. */
  predicate KnownDay(days: int) { -262143 <= DateOf(days).year <= 262142 }

  /** Both without a zone, or both in UTC, under either of its names. */
  predicate SameZone(expected: Option<string>, actual: Option<string>) {
    if expected.None? || actual.None? then expected == actual
    else (expected.value == "UTC" || expected.value == "+00:00") && (actual.value == "UTC" || actual.value == "+00:00")
  }

  /** The scalar is a literal of the type, which the filter language can write. */
  predicate LiteralOf(dataType: DataType, scalar: Scalar) {
    match scalar
    case BooleanScalar(_) => dataType.Boolean?
    case IntScalar(number) => dataType.Int64? && -0x8000_0000_0000_0000 <= number < 0x8000_0000_0000_0000
    case Utf8Scalar(text) => dataType.Utf8? && forall i :: 0 <= i < |text| ==> Writable(text[i])
    case BinaryScalar(_) => dataType.Binary?
    case Date32Scalar(days) => dataType.Date32? && KnownDay(days)
    case Time64Scalar(micros) => dataType == Time64(Microsecond) && 0 <= micros < 86_400_000_000
    case TimestampScalar(unit, value, timezone) =>
      && (unit.Microsecond? || unit.Nanosecond?)
      && dataType.Timestamp? && dataType.unit == unit && SameZone(dataType.timezone, timezone)
      && KnownDay(if unit.Microsecond? then value / 86_400_000_000 else value / 86_400_000_000_000)
    case Decimal128Scalar(_, precision, scale) => dataType == Decimal128(precision, scale) && scale >= 0
    case Decimal256Scalar(_, precision, scale) => dataType == Decimal256(precision, scale) && scale >= 0
    case _ => false
  }

  lemma MicrosAndNanos(value: int)
    ensures value * 1_000 / 86_400_000_000_000 == value / 86_400_000_000
  {
  }

  lemma TextIsLiteral(text: string)
    ensures StringText(text).Some? <==> forall i :: 0 <= i < |text| ==> Writable(text[i])
  {
    forall c: char ensures Printable(c) <==> Writable(c) {
    }
  }

  lemma ZonesExactly(expected: Option<string>, actual: Option<string>)
    ensures EquivalentTimezone(expected, actual) && (expected.Some? ==> IsUtc(expected.value)) <==>
              SameZone(expected, actual)
  {
  }

  lemma TimestampsExactly(nanos: int, timezone: Option<string>)
    ensures TimestampLiteral(nanos, timezone).Some? <==>
              KnownDay(nanos / 86_400_000_000_000) && (timezone.Some? ==> IsUtc(timezone.value))
  {
  }

  lemma TimestampIsLiteral(dataType: DataType, unit: TimeUnit, value: int, timezone: Option<string>)
    ensures LiteralFor(Literal(TimestampScalar(unit, value, timezone)), dataType).Some? <==>
              LiteralOf(dataType, TimestampScalar(unit, value, timezone))
  {
    if dataType.Timestamp? {
      ZonesExactly(dataType.timezone, timezone);
      TimestampsExactly(value * NanosPerUnit(unit), dataType.timezone);
      MicrosAndNanos(value);
    }
  }

  /** A literal is printed for a type exactly when it is one of that type. */
  lemma LiteralsExactly(e: Expr, dataType: DataType)
    ensures LiteralFor(e, dataType).Some? <==> e.Literal? && LiteralOf(dataType, e.scalar)
  {
    if e.Literal? {
      match e.scalar {
        case Utf8Scalar(text) => TextIsLiteral(text);
        case TimestampScalar(unit, value, timezone) => TimestampIsLiteral(dataType, unit, value, timezone);
        case _ =>
      }
    }
  }

  // ---------------------------------------------------------------------------------------------------
  // Columns
  // ---------------------------------------------------------------------------------------------------

  /** The expression is a column that denotes a field of this type, of a kind that can be pushed down. */
  ghost predicate SupportedColumn(schema: Schema, e: Expr, dataType: DataType) {
    && e.Column?
    && exists names, steps, end ::
         Denotes(schema, e.relation, e.name, names, steps, end) && SupportedField(end) && end.dataType == dataType
  }

  ghost predicate Supports(schema: Schema, e: Expr) { exists dataType :: SupportedColumn(schema, e, dataType) }

  /** The second expression is a literal of the type of the column that is the first. */
  ghost predicate Compares(schema: Schema, column: Expr, literal: Expr) {
    && literal.Literal?
    && exists dataType :: SupportedColumn(schema, column, dataType) && LiteralOf(dataType, literal.scalar)
  }

  lemma SupportedColumnResolves(schema: Schema, e: Expr)
    ensures Supports(schema, e) <==> ResolveColumn(schema, e).Some?
    ensures forall dataType ::
              SupportedColumn(schema, e, dataType) <==>
              ResolveColumn(schema, e).Some? && ResolveColumn(schema, e).value.dataType == dataType
  {
    if e.Column? {
      ResolveColumnExactly(schema, e.relation, e.name);
      if ResolveColumn(schema, e).Some? {
        var names, steps, end :| Denotes(schema, e.relation, e.name, names, steps, end) && SupportedField(end);
        assert SupportedColumn(schema, e, end.dataType);
      }
    }
  }

  lemma ComparesExactly(schema: Schema, column: Expr, literal: Expr)
    ensures Compares(schema, column, literal) <==>
              ResolveColumn(schema, column).Some?
              && LiteralFor(literal, ResolveColumn(schema, column).value.dataType).Some?
  {
    SupportedColumnResolves(schema, column);
    if ResolveColumn(schema, column).Some? {
      LiteralsExactly(literal, ResolveColumn(schema, column).value.dataType);
    }
  }

  // ---------------------------------------------------------------------------------------------------
  // Leaves and filters
  // ---------------------------------------------------------------------------------------------------

  /**
   A leaf that can be pushed down: a null test of a supported column; a comparison of a supported column with a
   literal of its type, on whichever side the column is, the left one first; membership in a list, which is not
   empty, or between two bounds, of such literals.
   */
  ghost predicate PushableLeaf(schema: Schema, e: Expr) {
    match e
    case IsNull(child) => Supports(schema, child)
    case IsNotNull(child) => Supports(schema, child)
    case Binary(left, Comparing(_), right) =>
      if Supports(schema, left) then Compares(schema, left, right) else Compares(schema, right, left)
    case InList(child, list, _) => list != [] && forall i :: 0 <= i < |list| ==> Compares(schema, child, list[i])
    case Between(child, _, low, high) => Compares(schema, child, low) && Compares(schema, child, high)
    case _ => false
  }

  lemma {:induction false} ListExactly(list: seq<Expr>, dataType: DataType)
    ensures LiteralTexts(list, dataType).Some? <==>
              forall i :: 0 <= i < |list| ==> LiteralFor(list[i], dataType).Some?
  {
    if list != [] {
      ListExactly(list[1..], dataType);
      assert forall i :: 0 < i < |list| ==> list[i] == list[1..][i - 1];
      assert forall i :: 0 <= i < |list| - 1 ==> list[1..][i] == list[i + 1];
    }
  }

  lemma InListExactly(schema: Schema, child: Expr, list: seq<Expr>, negated: bool)
    ensures TranslateLeaf(schema, InList(child, list, negated)).Some? <==>
              PushableLeaf(schema, InList(child, list, negated))
  {
    forall i | 0 <= i < |list|
      ensures Compares(schema, child, list[i]) <==>
                ResolveColumn(schema, child).Some?
                && LiteralFor(list[i], ResolveColumn(schema, child).value.dataType).Some?
    {
      ComparesExactly(schema, child, list[i]);
    }
    if ResolveColumn(schema, child).Some? {
      ListExactly(list, ResolveColumn(schema, child).value.dataType);
    } else if list != [] {
      assert !Compares(schema, child, list[0]);
    }
  }

  lemma BetweenExactly(schema: Schema, child: Expr, negated: bool, low: Expr, high: Expr)
    ensures TranslateLeaf(schema, Between(child, negated, low, high)).Some? <==>
              PushableLeaf(schema, Between(child, negated, low, high))
  {
    ComparesExactly(schema, child, low);
    ComparesExactly(schema, child, high);
  }

  lemma ComparisonExactly(schema: Schema, left: Expr, op: Comparison, right: Expr)
    ensures TranslateLeaf(schema, Expr.Binary(left, Comparing(op), right)).Some? <==>
              PushableLeaf(schema, Expr.Binary(left, Comparing(op), right))
  {
    SupportedColumnResolves(schema, left);
    ComparesExactly(schema, left, right);
    ComparesExactly(schema, right, left);
  }

  lemma LeafExactly(schema: Schema, e: Expr)
    ensures TranslateLeaf(schema, e).Some? <==> PushableLeaf(schema, e)
  {
    match e {
      case IsNull(child) => SupportedColumnResolves(schema, child);
      case IsNotNull(child) => SupportedColumnResolves(schema, child);
      case Binary(left, Comparing(op), right) => ComparisonExactly(schema, left, op, right);
      case InList(child, list, negated) => InListExactly(schema, child, list, negated);
      case Between(child, negated, low, high) => BetweenExactly(schema, child, negated, low, high);
      case _ =>
    }
  }

  /** Connectives and negations of what can be pushed down can be. */
  ghost predicate Pushable(schema: Schema, e: Expr) {
    match e
    case Binary(left, And, right) => Pushable(schema, left) && Pushable(schema, right)
    case Binary(left, Or, right) => Pushable(schema, left) && Pushable(schema, right)
    case Not(child) => Pushable(schema, child)
    case _ => PushableLeaf(schema, e)
  }

  /** A filter is translated, and so reported as exactly supported, exactly when it is built by AND, OR and NOT from
    * leaves that can be pushed down. */
  lemma TranslatedExactly(schema: Schema, e: Expr)
    ensures PrintText(schema, e).Some? <==> Pushable(schema, e)
    ensures PrintText(schema, e).Some? <==> forall leaf :: leaf in Leaves(e) ==> PushableLeaf(schema, leaf)
  {
    PrintedExactly(schema, e);
    UnsupportedExactlyByALeaf(schema, e);
    forall leaf | leaf in Leaves(e) ensures TranslateLeaf(schema, leaf).Some? <==> PushableLeaf(schema, leaf) {
      LeafExactly(schema, leaf);
    }
  }

  lemma {:induction false} PrintedExactly(schema: Schema, e: Expr)
    ensures PrintText(schema, e).Some? <==> Pushable(schema, e)
  {
    match e {
      case Binary(left, And, right) =>
        PrintedExactly(schema, left);
        PrintedExactly(schema, right);
      case Binary(left, Or, right) =>
        PrintedExactly(schema, left);
        PrintedExactly(schema, right);
      case Not(child) => PrintedExactly(schema, child);
      case _ => LeafExactly(schema, e);
    }
  }

  // ---------------------------------------------------------------------------------------------------
  // Supported types
  // ---------------------------------------------------------------------------------------------------

  /** A type with a literal. */
  ghost predicate HasLiterals(dataType: DataType) { exists scalar :: LiteralOf(dataType, scalar) }

  lemma Example(dataType: DataType) returns (scalar: Scalar)
    ensures SupportedField(Field("", dataType, [])) && !dataType.Float64?
            && (dataType.Timestamp? && dataType.timezone.Some? ==>
                  dataType.timezone.value == "UTC" || dataType.timezone.value == "+00:00")
            && (dataType.Decimal128? || dataType.Decimal256? ==> dataType.scale >= 0)
            ==> LiteralOf(dataType, scalar)
  {
    scalar := match dataType
      case Boolean => BooleanScalar(true)
      case Int64 => IntScalar(0)
      case Utf8 => Utf8Scalar("")
      case Binary => BinaryScalar([])
      case Date32 => Date32Scalar(0)
      case Time64(_) => Time64Scalar(0)
      case Timestamp(unit, timezone) => TimestampScalar(unit, 0, timezone)
      case Decimal128(precision, scale) => Decimal128Scalar(0, precision, scale)
      case Decimal256(precision, scale) => Decimal256Scalar(0, precision, scale)
      case _ => NullScalar;
  }

  /**
   A field can be pushed down exactly when it is no geography and no JSON and its type has literals, or is a
   float, whose literals are not modelled, or one of two kinds that only null tests reach: decimals of a
   negative scale and timestamps of a fine unit in a zone other than UTC.
   */
  lemma SupportedFieldsExactly(field: Field)
    ensures SupportedField(field) <==>
              && !(exists m :: m in field.metadata
                     && (Contains(UpperText(m.0), "LOGICAL") || Contains(UpperText(m.0), "EXTENSION"))
                     && (Contains(UpperText(m.1), "GEOGRAPHY") || Contains(UpperText(m.1), "JSON")))
              && (|| HasLiterals(field.dataType)
                  || field.dataType.Float64?
                  || ((field.dataType.Decimal128? || field.dataType.Decimal256?) && field.dataType.scale < 0)
                  || (&& field.dataType.Timestamp? && field.dataType.timezone.Some?
                      && (field.dataType.unit.Microsecond? || field.dataType.unit.Nanosecond?)
                      && field.dataType.timezone.value != "UTC" && field.dataType.timezone.value != "+00:00"))
  {
    var scalar := Example(field.dataType);
    assert !UnsupportedLogicalType([]);
  }
}
