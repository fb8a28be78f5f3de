/** Comparing two columnar schemas without recursion: a worklist of paired fields and types,
  * in a strict mode and in a mode that lets the right side drop nullability.
  */
module SchemaComparison {

  datatype ListKind = Plain | View | Large | LargeView

  datatype UnionMode = Sparse | Dense

  datatype DataType =
    | Leaf(kind: string)
    | List(kind': ListKind, item: Field)
    | FixedSizeList(item: Field, size: int)
    | Struct(fields: seq<Field>)
    | Union(members: seq<Member>, mode: UnionMode)
    | Dictionary(key: DataType, value: DataType)
    | Map(entries: Field, sorted: bool)
    | RunEndEncoded(ends: Field, values: Field)

  datatype Field = Field(name: string, nullable: bool, dataType: DataType, metadata: map<string, string>)

  datatype Member = Member(id: int, field: Field)

  datatype Nullability = Exact | ActualMayRefine

  // ---------- the recursive comparison ----------

  predicate NullabilityMatches(left: bool, right: bool, mode: Nullability) {
    match mode
    case Exact => left == right
    case ActualMayRefine => left || !right
  }

  predicate FieldMatches(left: Field, right: Field, mode: Nullability)
    decreases left
  {
    && left.name == right.name
    && NullabilityMatches(left.nullable, right.nullable, mode)
    && TypeMatches(left.dataType, right.dataType, mode)
  }

  predicate TypeMatches(left: DataType, right: DataType, mode: Nullability)
    decreases left
  {
    match (left, right)
    case (List(k, l), List(k', r)) => k == k' && FieldMatches(l, r, mode)
    case (FixedSizeList(l, n), FixedSizeList(r, m)) => n == m && FieldMatches(l, r, mode)
    case (Struct(ls), Struct(rs)) => FieldsMatch(ls, rs, mode)
    case (Union(ls, m), Union(rs, m')) => m == m' && MembersMatch(ls, rs, mode)
    case (Dictionary(lk, lv), Dictionary(rk, rv)) => TypeMatches(lk, rk, mode) && TypeMatches(lv, rv, mode)
    case (Map(l, s), Map(r, s')) => s == s' && FieldMatches(l, r, mode)
    case (RunEndEncoded(le, lv), RunEndEncoded(re, rv)) => FieldMatches(le, re, mode) && FieldMatches(lv, rv, mode)
    case (Leaf(k), Leaf(k')) => k == k'
    case _ => false
  }

  predicate FieldsMatch(left: seq<Field>, right: seq<Field>, mode: Nullability)
    decreases left
  {
    |left| == |right|
    && (left == [] || (FieldMatches(left[0], right[0], mode) && FieldsMatch(left[1..], right[1..], mode)))
  }

  predicate MembersMatch(left: seq<Member>, right: seq<Member>, mode: Nullability)
    decreases left
  {
    if |left| != |right| || left == [] then |left| == |right|
    else
      assert left decreases to left[0];
      && left[0].id == right[0].id
      && FieldMatches(left[0].field, right[0].field, mode)
      && MembersMatch(left[1..], right[1..], mode)
  }

  // ---------- what matches ----------

  /** A field, a type, and sequences of them, without metadata and with every field made non-nullable. */
  function EraseField(field: Field): Field
    decreases field
  {
    Field(field.name, false, EraseType(field.dataType), map[])
  }

  function EraseType(dataType: DataType): DataType
    decreases dataType
  {
    match dataType
    case Leaf(kind) => Leaf(kind)
    case List(kind, item) => List(kind, EraseField(item))
    case FixedSizeList(item, size) => FixedSizeList(EraseField(item), size)
    case Struct(fields) => Struct(EraseFields(fields))
    case Union(members, mode) => Union(EraseMembers(members), mode)
    case Dictionary(key, value) => Dictionary(EraseType(key), EraseType(value))
    case Map(entries, sorted) => Map(EraseField(entries), sorted)
    case RunEndEncoded(ends, values) => RunEndEncoded(EraseField(ends), EraseField(values))
  }

  function EraseFields(fields: seq<Field>): (erased: seq<Field>)
    ensures |erased| == |fields|
    decreases fields
  {
    if fields == [] then [] else [EraseField(fields[0])] + EraseFields(fields[1..])
  }

  function EraseMembers(members: seq<Member>): (erased: seq<Member>)
    ensures |erased| == |members|
    decreases members
  {
    if members == [] then []
    else
      assert members decreases to members[0];
      [Member(members[0].id, EraseField(members[0].field))] + EraseMembers(members[1..])
  }

  /** The nullable flags of all nested fields, each field before what is inside it. */
  function FieldFlags(field: Field): seq<bool>
    decreases field
  {
    [field.nullable] + TypeFlags(field.dataType)
  }

  function TypeFlags(dataType: DataType): seq<bool>
    decreases dataType
  {
    match dataType
    case Leaf(_) => []
    case List(_, item) => FieldFlags(item)
    case FixedSizeList(item, _) => FieldFlags(item)
    case Struct(fields) => Flags(fields)
    case Union(members, _) => MemberFlags(members)
    case Dictionary(key, value) => TypeFlags(key) + TypeFlags(value)
    case Map(entries, _) => FieldFlags(entries)
    case RunEndEncoded(ends, values) => FieldFlags(ends) + FieldFlags(values)
  }

  function Flags(fields: seq<Field>): seq<bool>
    decreases fields
  {
    if fields == [] then [] else FieldFlags(fields[0]) + Flags(fields[1..])
  }

  function MemberFlags(members: seq<Member>): seq<bool>
    decreases members
  {
    if members == [] then []
    else
      assert members decreases to members[0];
      FieldFlags(members[0].field) + MemberFlags(members[1..])
  }

  /** Position by position: a field of the right side is nullable only where one of the left is, and in the
    * strict mode exactly there. */
  predicate FlagsAgree(left: seq<bool>, right: seq<bool>, mode: Nullability) {
    && |left| == |right|
    && forall i :: 0 <= i < |left| ==> (right[i] ==> left[i]) && (mode.Exact? ==> left[i] == right[i])
  }

  lemma FlagsAgreeConcat(a: seq<bool>, b: seq<bool>, c: seq<bool>, d: seq<bool>, mode: Nullability)
    requires |a| == |c|
    ensures FlagsAgree(a + b, c + d, mode) <==> FlagsAgree(a, c, mode) && FlagsAgree(b, d, mode)
  {
    if FlagsAgree(a + b, c + d, mode) {
      assert forall i :: 0 <= i < |a| ==> (a + b)[i] == a[i] && (c + d)[i] == c[i];
      assert forall i :: 0 <= i < |b| ==> (a + b)[|a| + i] == b[i] && (c + d)[|a| + i] == d[i];
    }
  }

  lemma ConsIsInjective<T>(a: T, rest: seq<T>, b: T, others: seq<T>)
    ensures [a] + rest == [b] + others <==> a == b && rest == others
  {
    if [a] + rest == [b] + others {
      assert ([a] + rest)[0] == a && ([b] + others)[0] == b;
      assert ([a] + rest)[1..] == rest && ([b] + others)[1..] == others;
    }
  }

  lemma OneFlagAgrees(left: bool, right: bool, mode: Nullability)
    ensures FlagsAgree([left], [right], mode) <==> NullabilityMatches(left, right, mode)
  {
    assert [left][0] == left && [right][0] == right;
  }

  lemma {:induction false} FieldMatchesExactly(left: Field, right: Field, mode: Nullability)
    ensures EraseField(left) == EraseField(right) ==> |FieldFlags(left)| == |FieldFlags(right)|
    ensures FieldMatches(left, right, mode) <==>
              EraseField(left) == EraseField(right) && FlagsAgree(FieldFlags(left), FieldFlags(right), mode)
    decreases left
  {
    TypeMatchesExactly(left.dataType, right.dataType, mode);
    FlagsAgreeConcat([left.nullable], TypeFlags(left.dataType), [right.nullable], TypeFlags(right.dataType), mode);
    OneFlagAgrees(left.nullable, right.nullable, mode);
  }

  lemma {:induction false} TypeMatchesExactly(left: DataType, right: DataType, mode: Nullability)
    ensures EraseType(left) == EraseType(right) ==> |TypeFlags(left)| == |TypeFlags(right)|
    ensures TypeMatches(left, right, mode) <==>
              EraseType(left) == EraseType(right) && FlagsAgree(TypeFlags(left), TypeFlags(right), mode)
    decreases left
  {
    match (left, right)
    case (List(_, l), List(_, r)) => FieldMatchesExactly(l, r, mode);
    case (FixedSizeList(l, _), FixedSizeList(r, _)) => FieldMatchesExactly(l, r, mode);
    case (Struct(ls), Struct(rs)) => FieldsMatchExactly(ls, rs, mode);
    case (Union(ls, _), Union(rs, _)) => MembersMatchExactly(ls, rs, mode);
    case (Dictionary(lk, lv), Dictionary(rk, rv)) =>
      TypeMatchesExactly(lk, rk, mode);
      TypeMatchesExactly(lv, rv, mode);
      if EraseType(lk) == EraseType(rk) {
        FlagsAgreeConcat(TypeFlags(lk), TypeFlags(lv), TypeFlags(rk), TypeFlags(rv), mode);
      }
    case (Map(l, _), Map(r, _)) => FieldMatchesExactly(l, r, mode);
    case (RunEndEncoded(le, lv), RunEndEncoded(re, rv)) =>
      FieldMatchesExactly(le, re, mode);
      FieldMatchesExactly(lv, rv, mode);
      if EraseField(le) == EraseField(re) {
        FlagsAgreeConcat(FieldFlags(le), FieldFlags(lv), FieldFlags(re), FieldFlags(rv), mode);
      }
    case _ =>
  }

  lemma {:induction false} FieldsMatchExactly(left: seq<Field>, right: seq<Field>, mode: Nullability)
    ensures EraseFields(left) == EraseFields(right) ==> |Flags(left)| == |Flags(right)|
    ensures FieldsMatch(left, right, mode) <==>
              EraseFields(left) == EraseFields(right) && FlagsAgree(Flags(left), Flags(right), mode)
    decreases left
  {
    if left != [] && right != [] {
      FieldMatchesExactly(left[0], right[0], mode);
      FieldsMatchExactly(left[1..], right[1..], mode);
      ConsIsInjective(EraseField(left[0]), EraseFields(left[1..]), EraseField(right[0]), EraseFields(right[1..]));
      if EraseField(left[0]) == EraseField(right[0]) {
        FlagsAgreeConcat(FieldFlags(left[0]), Flags(left[1..]), FieldFlags(right[0]), Flags(right[1..]), mode);
      }
    }
  }

  lemma {:induction false} MembersMatchExactly(left: seq<Member>, right: seq<Member>, mode: Nullability)
    ensures EraseMembers(left) == EraseMembers(right) ==> |MemberFlags(left)| == |MemberFlags(right)|
    ensures MembersMatch(left, right, mode) <==>
              EraseMembers(left) == EraseMembers(right) && FlagsAgree(MemberFlags(left), MemberFlags(right), mode)
    decreases left
  {
    if left != [] && right != [] {
      var l, r := left[0], right[0];
      assert left decreases to l;
      FieldMatchesExactly(l.field, r.field, mode);
      MembersMatchExactly(left[1..], right[1..], mode);
      ConsIsInjective(Member(l.id, EraseField(l.field)), EraseMembers(left[1..]),
                      Member(r.id, EraseField(r.field)), EraseMembers(right[1..]));
      if EraseField(l.field) == EraseField(r.field) {
        FlagsAgreeConcat(FieldFlags(l.field), MemberFlags(left[1..]),
                         FieldFlags(r.field), MemberFlags(right[1..]), mode);
      }
    }
  }

  // ---------- the worklist ----------

  datatype Comparison = Fields(left: Field, right: Field) | Types(leftType: DataType, rightType: DataType)

  predicate Holds(comparison: Comparison, mode: Nullability) {
    match comparison
    case Fields(left, right) => FieldMatches(left, right, mode)
    case Types(left, right) => TypeMatches(left, right, mode)
  }

  predicate AllHold(pending: seq<Comparison>, mode: Nullability) {
    forall i :: 0 <= i < |pending| ==> Holds(pending[i], mode)
  }

  lemma AllHoldConcat(front: seq<Comparison>, back: seq<Comparison>, mode: Nullability)
    ensures AllHold(front + back, mode) <==> AllHold(front, mode) && AllHold(back, mode)
  {
    assert forall i :: 0 <= i < |front| ==> (front + back)[i] == front[i];
    assert forall i :: 0 <= i < |back| ==> (front + back)[|front| + i] == back[i];
  }

  /** How many field and type nodes a schema has: what the worklist uses up. */
  function FieldSize(field: Field): nat
    decreases field
  {
    1 + TypeSize(field.dataType)
  }

  function TypeSize(dataType: DataType): nat
    decreases dataType
  {
    1 + match dataType
    case Leaf(_) => 0
    case List(_, item) => FieldSize(item)
    case FixedSizeList(item, _) => FieldSize(item)
    case Struct(fields) => FieldsSize(fields)
    case Union(members, _) => MembersSize(members)
    case Dictionary(key, value) => TypeSize(key) + TypeSize(value)
    case Map(entries, _) => FieldSize(entries)
    case RunEndEncoded(ends, values) => FieldSize(ends) + FieldSize(values)
  }

  function FieldsSize(fields: seq<Field>): nat
    decreases fields
  {
    if fields == [] then 0 else FieldSize(fields[0]) + FieldsSize(fields[1..])
  }

  function MembersSize(members: seq<Member>): nat
    decreases members
  {
    if members == [] then 0
    else
      assert members decreases to members[0];
      FieldSize(members[0].field) + MembersSize(members[1..])
  }

  function ComparisonSize(comparison: Comparison): nat {
    match comparison
    case Fields(left, _) => FieldSize(left)
    case Types(left, _) => TypeSize(left)
  }

  function PendingSize(pending: seq<Comparison>): nat {
    if pending == [] then 0 else PendingSize(pending[..|pending| - 1]) + ComparisonSize(pending[|pending| - 1])
  }

  lemma {:induction false} PendingSizeConcat(front: seq<Comparison>, back: seq<Comparison>)
    ensures PendingSize(front + back) == PendingSize(front) + PendingSize(back)
  {
    if back == [] {
      assert front + back == front;
    } else {
      assert (front + back)[..|front + back| - 1] == front + back[..|back| - 1];
      PendingSizeConcat(front, back[..|back| - 1]);
    }
  }

  function Zip(left: seq<Field>, right: seq<Field>): seq<Comparison>
    requires |left| == |right|
  {
    if left == [] then [] else [Fields(left[0], right[0])] + Zip(left[1..], right[1..])
  }

  lemma {:induction false} ZipCompares(left: seq<Field>, right: seq<Field>, mode: Nullability)
    requires |left| == |right|
    ensures AllHold(Zip(left, right), mode) <==> FieldsMatch(left, right, mode)
    ensures PendingSize(Zip(left, right)) == FieldsSize(left)
  {
    if left != [] {
      var head := [Fields(left[0], right[0])];
      ZipCompares(left[1..], right[1..], mode);
      AllHoldConcat(head, Zip(left[1..], right[1..]), mode);
      PendingSizeConcat(head, Zip(left[1..], right[1..]));
      assert PendingSize(head) == FieldSize(left[0]);
      assert AllHold(head, mode) <==> Holds(head[0], mode);
    }
  }

  /** What one popped comparison pushes, or nothing when it already fails. */
  datatype Expansion = Mismatch | Push(comparisons: seq<Comparison>)

  function Expand(comparison: Comparison, mode: Nullability): Expansion {
    match comparison
    case Fields(left, right) =>
      if left.name != right.name || !NullabilityMatches(left.nullable, right.nullable, mode) then Mismatch
      else Push([Types(left.dataType, right.dataType)])
    case Types(left, right) => ExpandTypes(left, right)
  }

  function ExpandTypes(left: DataType, right: DataType): Expansion {
    match (left, right)
    case (List(k, l), List(k', r)) => if k == k' then Push([Fields(l, r)]) else Mismatch
    case (FixedSizeList(l, n), FixedSizeList(r, m)) => if n != m then Mismatch else Push([Fields(l, r)])
    case (Struct(ls), Struct(rs)) => if |ls| != |rs| then Mismatch else Push(Zip(ls, rs))
    case (Union(ls, m), Union(rs, m')) =>
      if m != m' || |ls| != |rs| || !SameIds(ls, rs) then Mismatch else Push(Zip(FieldsOf(ls), FieldsOf(rs)))
    case (Dictionary(lk, lv), Dictionary(rk, rv)) => Push([Types(lk, rk), Types(lv, rv)])
    case (Map(l, s), Map(r, s')) => if s != s' then Mismatch else Push([Fields(l, r)])
    case (RunEndEncoded(le, lv), RunEndEncoded(re, rv)) => Push([Fields(le, re), Fields(lv, rv)])
    case _ => if left != right then Mismatch else Push([])
  }

  predicate SameIds(left: seq<Member>, right: seq<Member>)
    requires |left| == |right|
  {
    forall i :: 0 <= i < |left| ==> left[i].id == right[i].id
  }

  function FieldsOf(members: seq<Member>): (fields: seq<Field>)
    ensures |fields| == |members|
  {
    if members == [] then [] else [members[0].field] + FieldsOf(members[1..])
  }

  lemma {:induction false} MembersAreFields(left: seq<Member>, right: seq<Member>, mode: Nullability)
    requires |left| == |right|
    ensures MembersMatch(left, right, mode) <==>
              SameIds(left, right) && FieldsMatch(FieldsOf(left), FieldsOf(right), mode)
    ensures FieldsSize(FieldsOf(left)) == MembersSize(left)
  {
    if left != [] {
      MembersAreFields(left[1..], right[1..], mode);
      assert FieldsOf(left)[1..] == FieldsOf(left[1..]) && FieldsOf(right)[1..] == FieldsOf(right[1..]);
      assert SameIds(left, right) <==> left[0].id == right[0].id && SameIds(left[1..], right[1..]) by {
        assert forall i :: 0 <= i < |left| - 1 ==> left[1..][i] == left[i + 1] && right[1..][i] == right[i + 1];
        assert forall i :: 0 < i < |left| ==> left[i] == left[1..][i - 1] && right[i] == right[1..][i - 1];
      }
    }
  }

  lemma PairHolds(a: Comparison, b: Comparison, mode: Nullability)
    ensures AllHold([a, b], mode) <==> Holds(a, mode) && Holds(b, mode)
    ensures PendingSize([a, b]) == ComparisonSize(a) + ComparisonSize(b)
  {
    assert [a, b][..1] == [a];
    assert [a, b][0] == a && [a, b][1] == b;
    SingleHolds(a, mode);
  }

  lemma SingleHolds(a: Comparison, mode: Nullability)
    ensures AllHold([a], mode) <==> Holds(a, mode)
    ensures PendingSize([a]) == ComparisonSize(a)
  {
    assert [a][0] == a;
  }

  /** Expanding a comparison keeps its truth and shrinks the work. */
  lemma ExpansionIsFaithful(comparison: Comparison, mode: Nullability)
    ensures Expand(comparison, mode).Mismatch? ==> !Holds(comparison, mode)
    ensures Expand(comparison, mode).Push? ==>
      && (AllHold(Expand(comparison, mode).comparisons, mode) <==> Holds(comparison, mode))
      && PendingSize(Expand(comparison, mode).comparisons) < ComparisonSize(comparison)
  {
    match comparison
    case Fields(left, right) => SingleHolds(Types(left.dataType, right.dataType), mode);
    case Types(left, right) => TypeExpansionIsFaithful(left, right, mode);
  }

  lemma TypeExpansionIsFaithful(left: DataType, right: DataType, mode: Nullability)
    ensures ExpandTypes(left, right).Mismatch? ==> !TypeMatches(left, right, mode)
    ensures ExpandTypes(left, right).Push? ==>
      && (AllHold(ExpandTypes(left, right).comparisons, mode) <==> TypeMatches(left, right, mode))
      && PendingSize(ExpandTypes(left, right).comparisons) < TypeSize(left)
  {
    match (left, right)
    case (List(_, l), List(_, r)) => SingleHolds(Fields(l, r), mode);
    case (FixedSizeList(l, _), FixedSizeList(r, _)) => SingleHolds(Fields(l, r), mode);
    case (Struct(ls), Struct(rs)) =>
      if |ls| == |rs| {
        ZipCompares(ls, rs, mode);
      }
    case (Union(ls, _), Union(rs, _)) =>
      if |ls| == |rs| {
        MembersAreFields(ls, rs, mode);
        ZipCompares(FieldsOf(ls), FieldsOf(rs), mode);
      }
    case (Dictionary(lk, lv), Dictionary(rk, rv)) => PairHolds(Types(lk, rk), Types(lv, rv), mode);
    case (Map(l, _), Map(r, _)) => SingleHolds(Fields(l, r), mode);
    case (RunEndEncoded(le, lv), RunEndEncoded(re, rv)) => PairHolds(Fields(le, re), Fields(lv, rv), mode);
    case _ =>
  }

  /** The worklist decides exactly the recursive comparison, for any nesting and either mode: whether the schemas
    * are equal but for metadata and nullability, and their nullable fields agree as the mode asks. */
  method HaveCompatibleStructure(left: seq<Field>, right: seq<Field>, mode: Nullability) returns (matches: bool)
    ensures matches <==> FieldsMatch(left, right, mode)
    ensures matches <==> EraseFields(left) == EraseFields(right) && FlagsAgree(Flags(left), Flags(right), mode)
  {
    FieldsMatchExactly(left, right, mode);
    if |left| != |right| {
      return false;
    }
    var pending := Zip(left, right);
    ZipCompares(left, right, mode);
    while pending != []
      invariant AllHold(pending, mode) <==> FieldsMatch(left, right, mode)
      decreases PendingSize(pending)
    {
      var last := |pending| - 1;
      var comparison := pending[last];
      ghost var before := pending;
      pending := pending[..last];
      assert before == pending + [comparison];
      AllHoldConcat(pending, [comparison], mode);
      SingleHolds(comparison, mode);
      ExpansionIsFaithful(comparison, mode);
      match Expand(comparison, mode)
      case Mismatch => return false;
      case Push(comparisons) =>
        AllHoldConcat(pending, comparisons, mode);
        PendingSizeConcat(pending, comparisons);
        pending := pending + comparisons;
    }
    matches := true;
  }

}
