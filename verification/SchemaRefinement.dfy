/** What the two modes of the schema comparison mean: equality without metadata, and a preorder whose matches keep
  * every row of the refined schema within the declared one.
  */
module SchemaRefinement {

  import opened SchemaComparison

  // ---------- the strict mode ----------

  /** A field, a type, and sequences of them without metadata. */
  function StripField(field: Field): Field
    decreases field
  {
    Field(field.name, field.nullable, StripType(field.dataType), map[])
  }

  function StripType(dataType: DataType): DataType
    decreases dataType
  {
    match dataType
    case Leaf(kind) => Leaf(kind)
    case List(kind, item) => List(kind, StripField(item))
    case FixedSizeList(item, size) => FixedSizeList(StripField(item), size)
    case Struct(fields) => Struct(StripFields(fields))
    case Union(members, mode) => Union(StripMembers(members), mode)
    case Dictionary(key, value) => Dictionary(StripType(key), StripType(value))
    case Map(entries, sorted) => Map(StripField(entries), sorted)
    case RunEndEncoded(ends, values) => RunEndEncoded(StripField(ends), StripField(values))
  }

  function StripFields(fields: seq<Field>): (stripped: seq<Field>)
    ensures |stripped| == |fields|
    decreases fields
  {
    if fields == [] then [] else [StripField(fields[0])] + StripFields(fields[1..])
  }

  function StripMembers(members: seq<Member>): (stripped: seq<Member>)
    ensures |stripped| == |members|
    decreases members
  {
    if members == [] then []
    else
      assert members decreases to members[0];
      [Member(members[0].id, StripField(members[0].field))] + StripMembers(members[1..])
  }

  lemma {:induction false} ExactFields(left: Field, right: Field)
    ensures FieldMatches(left, right, Exact) <==> StripField(left) == StripField(right)
    decreases left
  {
    ExactTypes(left.dataType, right.dataType);
  }

  lemma {:induction false} ExactTypes(left: DataType, right: DataType)
    ensures TypeMatches(left, right, Exact) <==> StripType(left) == StripType(right)
    decreases left
  {
    match (left, right)
    case (List(_, l), List(_, r)) => ExactFields(l, r);
    case (FixedSizeList(l, _), FixedSizeList(r, _)) => ExactFields(l, r);
    case (Struct(ls), Struct(rs)) => ExactSequences(ls, rs);
    case (Union(ls, _), Union(rs, _)) => ExactMembers(ls, rs);
    case (Dictionary(lk, lv), Dictionary(rk, rv)) =>
      ExactTypes(lk, rk);
      ExactTypes(lv, rv);
    case (Map(l, _), Map(r, _)) => ExactFields(l, r);
    case (RunEndEncoded(le, lv), RunEndEncoded(re, rv)) =>
      ExactFields(le, re);
      ExactFields(lv, rv);
    case _ =>
  }

  lemma {:induction false} ExactSequences(left: seq<Field>, right: seq<Field>)
    ensures FieldsMatch(left, right, Exact) <==> StripFields(left) == StripFields(right)
    decreases left
  {
    if left != [] && right != [] {
      ExactFields(left[0], right[0]);
      ExactSequences(left[1..], right[1..]);
      ConsIsInjective(StripField(left[0]), StripFields(left[1..]), StripField(right[0]), StripFields(right[1..]));
    }
  }

  lemma {:induction false} ExactMembers(left: seq<Member>, right: seq<Member>)
    ensures MembersMatch(left, right, Exact) <==> StripMembers(left) == StripMembers(right)
    decreases left
  {
    if left != [] && right != [] {
      var l, r := left[0], right[0];
      assert left decreases to l;
      ExactFields(l.field, r.field);
      ExactMembers(left[1..], right[1..]);
      ConsIsInjective(Member(l.id, StripField(l.field)), StripMembers(left[1..]),
                      Member(r.id, StripField(r.field)), StripMembers(right[1..]));
    }
  }

  /** The strict comparison is equality once metadata is removed, so it is an equivalence. */
  lemma ExactIsEqualityWithoutMetadata(a: seq<Field>, b: seq<Field>, c: seq<Field>)
    ensures FieldsMatch(a, b, Exact) <==> StripFields(a) == StripFields(b)
    ensures FieldsMatch(a, a, Exact)
    ensures FieldsMatch(a, b, Exact) ==> FieldsMatch(b, a, Exact)
    ensures FieldsMatch(a, b, Exact) && FieldsMatch(b, c, Exact) ==> FieldsMatch(a, c, Exact)
  {
    ExactSequences(a, a);
    ExactSequences(a, b);
    ExactSequences(b, a);
    ExactSequences(b, c);
    ExactSequences(a, c);
  }

  // ---------- the refining mode ----------

  lemma {:induction false} FieldsRefineThrough(a: Field, b: Field, c: Field)
    requires FieldMatches(a, b, ActualMayRefine) && FieldMatches(b, c, ActualMayRefine)
    ensures FieldMatches(a, c, ActualMayRefine)
    decreases a
  {
    TypesRefineThrough(a.dataType, b.dataType, c.dataType);
  }

  lemma {:induction false} TypesRefineThrough(a: DataType, b: DataType, c: DataType)
    requires TypeMatches(a, b, ActualMayRefine) && TypeMatches(b, c, ActualMayRefine)
    ensures TypeMatches(a, c, ActualMayRefine)
    decreases a
  {
    match (a, b, c)
    case (List(_, x), List(_, y), List(_, z)) => FieldsRefineThrough(x, y, z);
    case (FixedSizeList(x, _), FixedSizeList(y, _), FixedSizeList(z, _)) => FieldsRefineThrough(x, y, z);
    case (Struct(x), Struct(y), Struct(z)) => SequencesRefineThrough(x, y, z);
    case (Union(x, _), Union(y, _), Union(z, _)) => MembersRefineThrough(x, y, z);
    case (Dictionary(xk, xv), Dictionary(yk, yv), Dictionary(zk, zv)) =>
      TypesRefineThrough(xk, yk, zk);
      TypesRefineThrough(xv, yv, zv);
    case (Map(x, _), Map(y, _), Map(z, _)) => FieldsRefineThrough(x, y, z);
    case (RunEndEncoded(xe, xv), RunEndEncoded(ye, yv), RunEndEncoded(ze, zv)) =>
      FieldsRefineThrough(xe, ye, ze);
      FieldsRefineThrough(xv, yv, zv);
    case _ =>
  }

  lemma {:induction false} SequencesRefineThrough(a: seq<Field>, b: seq<Field>, c: seq<Field>)
    requires FieldsMatch(a, b, ActualMayRefine) && FieldsMatch(b, c, ActualMayRefine)
    ensures FieldsMatch(a, c, ActualMayRefine)
    decreases a
  {
    if a != [] {
      FieldsRefineThrough(a[0], b[0], c[0]);
      SequencesRefineThrough(a[1..], b[1..], c[1..]);
    }
  }

  lemma {:induction false} MembersRefineThrough(a: seq<Member>, b: seq<Member>, c: seq<Member>)
    requires MembersMatch(a, b, ActualMayRefine) && MembersMatch(b, c, ActualMayRefine)
    ensures MembersMatch(a, c, ActualMayRefine)
    decreases a
  {
    if a != [] {
      assert a decreases to a[0];
      FieldsRefineThrough(a[0].field, b[0].field, c[0].field);
      MembersRefineThrough(a[1..], b[1..], c[1..]);
    }
  }

  lemma {:induction false} FieldsRefineBothWays(a: Field, b: Field)
    ensures FieldMatches(a, b, Exact) <==> FieldMatches(a, b, ActualMayRefine) && FieldMatches(b, a, ActualMayRefine)
    decreases a
  {
    TypesRefineBothWays(a.dataType, b.dataType);
  }

  lemma {:induction false} TypesRefineBothWays(a: DataType, b: DataType)
    ensures TypeMatches(a, b, Exact) <==> TypeMatches(a, b, ActualMayRefine) && TypeMatches(b, a, ActualMayRefine)
    decreases a
  {
    match (a, b)
    case (List(_, x), List(_, y)) => FieldsRefineBothWays(x, y);
    case (FixedSizeList(x, _), FixedSizeList(y, _)) => FieldsRefineBothWays(x, y);
    case (Struct(x), Struct(y)) => SequencesRefineBothWays(x, y);
    case (Union(x, _), Union(y, _)) => MembersRefineBothWays(x, y);
    case (Dictionary(xk, xv), Dictionary(yk, yv)) =>
      TypesRefineBothWays(xk, yk);
      TypesRefineBothWays(xv, yv);
    case (Map(x, _), Map(y, _)) => FieldsRefineBothWays(x, y);
    case (RunEndEncoded(xe, xv), RunEndEncoded(ye, yv)) =>
      FieldsRefineBothWays(xe, ye);
      FieldsRefineBothWays(xv, yv);
    case _ =>
  }

  lemma {:induction false} SequencesRefineBothWays(a: seq<Field>, b: seq<Field>)
    ensures FieldsMatch(a, b, Exact) <==> FieldsMatch(a, b, ActualMayRefine) && FieldsMatch(b, a, ActualMayRefine)
    decreases a
  {
    if a != [] && b != [] {
      FieldsRefineBothWays(a[0], b[0]);
      SequencesRefineBothWays(a[1..], b[1..]);
    }
  }

  lemma {:induction false} MembersRefineBothWays(a: seq<Member>, b: seq<Member>)
    ensures MembersMatch(a, b, Exact) <==> MembersMatch(a, b, ActualMayRefine) && MembersMatch(b, a, ActualMayRefine)
    decreases a
  {
    if a != [] && b != [] {
      assert a decreases to a[0];
      FieldsRefineBothWays(a[0].field, b[0].field);
      MembersRefineBothWays(a[1..], b[1..]);
    }
  }

  /** Refinement is a preorder whose two directions together are the strict comparison. */
  lemma RefinementIsAPreorder(a: seq<Field>, b: seq<Field>, c: seq<Field>)
    ensures FieldsMatch(a, a, ActualMayRefine)
    ensures FieldsMatch(a, b, ActualMayRefine) && FieldsMatch(b, c, ActualMayRefine) ==>
              FieldsMatch(a, c, ActualMayRefine)
    ensures FieldsMatch(a, b, ActualMayRefine) && FieldsMatch(b, a, ActualMayRefine) <==> FieldsMatch(a, b, Exact)
  {
    ExactSequences(a, a);
    SequencesRefineBothWays(a, a);
    SequencesRefineBothWays(a, b);
    if FieldsMatch(a, b, ActualMayRefine) && FieldsMatch(b, c, ActualMayRefine) {
      SequencesRefineThrough(a, b, c);
    }
  }

  // ---------- what a batch may hold ----------

  /** A nested value as a batch stores it. */
  datatype Value =
    | Null
    | Scalar(kind: string, text: string)
    | Items(items: seq<Value>)
    | Record(columns: seq<Value>)
    | Tagged(id: int, value: Value)
    | Coded(code: Value, meaning: Value)
    | Run(end: Value, repeated: Value)

  predicate FieldAccepts(field: Field, value: Value)
    decreases field, 1
  {
    if value.Null? then field.nullable else TypeAccepts(field.dataType, value)
  }

  predicate TypeAccepts(dataType: DataType, value: Value)
    decreases dataType, 0
  {
    match (dataType, value)
    case (Leaf(kind), Scalar(k, _)) => k == kind
    case (List(_, item), Items(items)) => forall i :: 0 <= i < |items| ==> FieldAccepts(item, items[i])
    case (FixedSizeList(item, size), Items(items)) =>
      |items| == size && forall i :: 0 <= i < |items| ==> FieldAccepts(item, items[i])
    case (Struct(fields), Record(columns)) => FieldsAccept(fields, columns)
    case (Union(members, _), Tagged(id, inner)) => MembersAccept(members, id, inner)
    case (Dictionary(key, meaning), Coded(k, v)) => TypeAccepts(key, k) && TypeAccepts(meaning, v)
    case (Map(entries, _), Items(items)) => forall i :: 0 <= i < |items| ==> FieldAccepts(entries, items[i])
    case (RunEndEncoded(ends, values), Run(end, repeated)) => FieldAccepts(ends, end) && FieldAccepts(values, repeated)
    case _ => false
  }

  predicate FieldsAccept(fields: seq<Field>, values: seq<Value>)
    decreases fields, 0
  {
    |fields| == |values|
    && (fields == [] || (FieldAccepts(fields[0], values[0]) && FieldsAccept(fields[1..], values[1..])))
  }

  predicate MembersAccept(members: seq<Member>, id: int, value: Value)
    decreases members, 0
  {
    if members == [] then false
    else
      assert members decreases to members[0];
      (members[0].id == id && FieldAccepts(members[0].field, value)) || MembersAccept(members[1..], id, value)
  }

  lemma {:induction false} FieldRefines(expected: Field, actual: Field, value: Value)
    requires FieldMatches(expected, actual, ActualMayRefine) && FieldAccepts(actual, value)
    ensures FieldAccepts(expected, value)
    decreases expected, 1
  {
    if !value.Null? {
      TypeRefines(expected.dataType, actual.dataType, value);
    }
  }

  lemma {:induction false} ItemsRefine(expected: Field, actual: Field, items: seq<Value>)
    requires FieldMatches(expected, actual, ActualMayRefine)
    requires forall i :: 0 <= i < |items| ==> FieldAccepts(actual, items[i])
    ensures forall i :: 0 <= i < |items| ==> FieldAccepts(expected, items[i])
    decreases expected, 2
  {
    forall i | 0 <= i < |items| ensures FieldAccepts(expected, items[i]) {
      FieldRefines(expected, actual, items[i]);
    }
  }

  lemma {:induction false} TypeRefines(expected: DataType, actual: DataType, value: Value)
    requires TypeMatches(expected, actual, ActualMayRefine) && TypeAccepts(actual, value)
    ensures TypeAccepts(expected, value)
    decreases expected, 0
  {
    match (expected, actual, value)
    case (List(_, e), List(_, a), Items(items)) => ItemsRefine(e, a, items);
    case (FixedSizeList(e, _), FixedSizeList(a, _), Items(items)) => ItemsRefine(e, a, items);
    case (Struct(e), Struct(a), Record(columns)) => FieldsRefine(e, a, columns);
    case (Union(e, _), Union(a, _), Tagged(id, inner)) => MembersRefine(e, a, id, inner);
    case (Dictionary(ek, ev), Dictionary(ak, av), Coded(k, v)) =>
      TypeRefines(ek, ak, k);
      TypeRefines(ev, av, v);
    case (Map(e, _), Map(a, _), Items(items)) => ItemsRefine(e, a, items);
    case (RunEndEncoded(ee, ev), RunEndEncoded(ae, av), Run(end, repeated)) =>
      FieldRefines(ee, ae, end);
      FieldRefines(ev, av, repeated);
    case _ =>
  }

  lemma {:induction false} FieldsRefine(expected: seq<Field>, actual: seq<Field>, values: seq<Value>)
    requires FieldsMatch(expected, actual, ActualMayRefine) && FieldsAccept(actual, values)
    ensures FieldsAccept(expected, values)
    decreases expected, 0
  {
    if expected != [] {
      FieldRefines(expected[0], actual[0], values[0]);
      FieldsRefine(expected[1..], actual[1..], values[1..]);
    }
  }

  lemma {:induction false} MembersRefine(expected: seq<Member>, actual: seq<Member>, id: int, value: Value)
    requires MembersMatch(expected, actual, ActualMayRefine) && MembersAccept(actual, id, value)
    ensures MembersAccept(expected, id, value)
    decreases expected, 0
  {
    assert expected decreases to expected[0];
    if actual[0].id == id && FieldAccepts(actual[0].field, value) {
      FieldRefines(expected[0].field, actual[0].field, value);
    } else {
      MembersRefine(expected[1..], actual[1..], id, value);
    }
  }

  lemma {:induction false} ErasedFieldHasNoFlags(field: Field)
    ensures EraseField(EraseField(field)) == EraseField(field)
    ensures |FieldFlags(EraseField(field))| == |FieldFlags(field)|
    ensures forall i :: 0 <= i < |FieldFlags(field)| ==> !FieldFlags(EraseField(field))[i]
    decreases field
  {
    ErasedTypeHasNoFlags(field.dataType);
  }

  lemma {:induction false} ErasedTypeHasNoFlags(dataType: DataType)
    ensures EraseType(EraseType(dataType)) == EraseType(dataType)
    ensures |TypeFlags(EraseType(dataType))| == |TypeFlags(dataType)|
    ensures forall i :: 0 <= i < |TypeFlags(dataType)| ==> !TypeFlags(EraseType(dataType))[i]
    decreases dataType
  {
    match dataType
    case Leaf(_) =>
    case List(_, item) => ErasedFieldHasNoFlags(item);
    case FixedSizeList(item, _) => ErasedFieldHasNoFlags(item);
    case Struct(fields) => ErasedFieldsHaveNoFlags(fields);
    case Union(members, _) => ErasedMembersHaveNoFlags(members);
    case Dictionary(key, value) =>
      ErasedTypeHasNoFlags(key);
      ErasedTypeHasNoFlags(value);
    case Map(entries, _) => ErasedFieldHasNoFlags(entries);
    case RunEndEncoded(ends, values) =>
      ErasedFieldHasNoFlags(ends);
      ErasedFieldHasNoFlags(values);
  }

  lemma {:induction false} ErasedFieldsHaveNoFlags(fields: seq<Field>)
    ensures EraseFields(EraseFields(fields)) == EraseFields(fields)
    ensures |Flags(EraseFields(fields))| == |Flags(fields)|
    ensures forall i :: 0 <= i < |Flags(fields)| ==> !Flags(EraseFields(fields))[i]
    decreases fields
  {
    if fields != [] {
      ErasedFieldHasNoFlags(fields[0]);
      ErasedFieldsHaveNoFlags(fields[1..]);
      assert EraseFields(fields)[1..] == EraseFields(fields[1..]);
    }
  }

  lemma {:induction false} ErasedMembersHaveNoFlags(members: seq<Member>)
    ensures EraseMembers(EraseMembers(members)) == EraseMembers(members)
    ensures |MemberFlags(EraseMembers(members))| == |MemberFlags(members)|
    ensures forall i :: 0 <= i < |MemberFlags(members)| ==> !MemberFlags(EraseMembers(members))[i]
    decreases members
  {
    if members != [] {
      assert members decreases to members[0];
      ErasedFieldHasNoFlags(members[0].field);
      ErasedMembersHaveNoFlags(members[1..]);
      assert EraseMembers(members)[1..] == EraseMembers(members[1..]);
    }
  }

  /** A schema accepts its own refinement by any flags: clear all of them, at every depth, or any one. */
  lemma RefinementIsAccepted(expected: seq<Field>, actual: seq<Field>)
    ensures FieldsMatch(expected, EraseFields(expected), ActualMayRefine)
    ensures EraseFields(expected) == EraseFields(actual) ==>
              (FieldsMatch(expected, actual, ActualMayRefine) <==>
                 |Flags(expected)| == |Flags(actual)|
                 && forall i :: 0 <= i < |Flags(actual)| && Flags(actual)[i] ==> Flags(expected)[i])
  {
    ErasedFieldsHaveNoFlags(expected);
    FieldsMatchExactly(expected, EraseFields(expected), ActualMayRefine);
    FieldsMatchExactly(expected, actual, ActualMayRefine);
  }

  /** A batch is let through exactly when its schema is the sink's but for metadata and for fields, at any
    * depth, that it makes non-nullable; it then holds only rows that the sink's schema allows. */
  method ValidateBatchSchema(expected: seq<Field>, actual: seq<Field>) returns (accepted: bool)
    ensures accepted <==>
              && EraseFields(expected) == EraseFields(actual) && |Flags(expected)| == |Flags(actual)|
              && forall i :: 0 <= i < |Flags(actual)| && Flags(actual)[i] ==> Flags(expected)[i]
    ensures accepted ==> forall row :: FieldsAccept(actual, row) ==> FieldsAccept(expected, row)
  {
    accepted := HaveCompatibleStructure(expected, actual, ActualMayRefine);
    RefinementIsAccepted(expected, actual);
    forall row | accepted && FieldsAccept(actual, row) ensures FieldsAccept(expected, row) {
      FieldsRefine(expected, actual, row);
    }
  }

  /** A nullable field that the batch makes nullable against a strict schema is refused, and
    * rightly: the batch may then hold a row the schema does not allow. */
  lemma WideningIsRefused(expected: Field, actual: Field)
    requires !expected.nullable && actual.nullable
    ensures !FieldsMatch([expected], [actual], ActualMayRefine)
    ensures FieldsAccept([actual], [Null]) && !FieldsAccept([expected], [Null])
  {
    assert FieldsAccept([actual][1..], [Null][1..]);
  }

}
