/** Sort specifications and how a run composes them: the partition columns first, then the
  * user's columns without them, with later repeats of a column dropped.
  */
module SortOrder {

  import opened FirstOccurrences
  import opened Wrappers

  datatype Direction = Ascending | Descending

  datatype NullPlacement = First | Last

  datatype SortColumn = SortColumn(name: string, direction: Direction, nulls: NullPlacement)

  datatype Strategy = SortSingle | NosortMulti | NosortEvict

  /** The only way the host builds a column: nulls count as the largest value. */
  function Conventional(name: string, direction: Direction): SortColumn {
    SortColumn(name, direction, if direction.Ascending? then Last else First)
  }

  function Name(column: SortColumn): string {
    column.name
  }

  // ---------- comparing rows ----------

  /** A row's non-null values by column; any other column is null. */
  datatype Row = Row(values: map<string, int>) {
    function At(name: string): Option<int> {
      if name in values then Some(values[name]) else None
    }
  }

  function CompareValues(a: Option<int>, b: Option<int>, column: SortColumn): int {
    if a == b then 0
    else if a.None? then if column.nulls.First? then -1 else 1
    else if b.None? then if column.nulls.First? then 1 else -1
    else if (a.value < b.value) == column.direction.Ascending? then -1 else 1
  }

  /** A conventional column orders values as its direction says, and nulls as the largest value of all. */
  lemma ConventionalOrder(name: string, x: int, y: int)
    ensures CompareValues(Some(x), Some(y), Conventional(name, Ascending)) < 0 <==> x < y
    ensures CompareValues(Some(x), Some(y), Conventional(name, Descending)) < 0 <==> y < x
    ensures CompareValues(Some(x), None, Conventional(name, Ascending)) < 0
    ensures CompareValues(None, Some(x), Conventional(name, Descending)) < 0
    ensures forall a, b, direction ::
              CompareValues(a, b, Conventional(name, direction)) == -CompareValues(b, a, Conventional(name, direction))
  {
  }

  /** The first column on which the rows differ decides. */
  function Compare(columns: seq<SortColumn>, a: Row, b: Row): int {
    if columns == [] then 0
    else
      var first := CompareValues(a.At(columns[0].name), b.At(columns[0].name), columns[0]);
      if first != 0 then first else Compare(columns[1..], a, b)
  }

  /** The value that rows hold in the first of their columns decides between them when it differs. */
  lemma FirstColumnDecides(column: SortColumn, others: seq<SortColumn>, a: Row, b: Row)
    requires column.name in a.values && column.name in b.values && a.values[column.name] != b.values[column.name]
    ensures Compare([column] + others, a, b) < 0 <==>
            (column.direction.Ascending? <==> a.values[column.name] < b.values[column.name])
  {
  }

  /** A row without a value in the first column is put on the side of the nulls. */
  lemma NullsTakeTheirSide(column: SortColumn, others: seq<SortColumn>, a: Row, b: Row)
    requires column.name !in a.values && column.name in b.values
    ensures Compare([column] + others, a, b) < 0 <==> column.nulls.First?
    ensures Compare([column] + others, b, a) < 0 <==> column.nulls.Last?
  {
  }

  predicate SortedBy(columns: seq<SortColumn>, rows: seq<Row>) {
    forall i, j :: 0 <= i < j < |rows| ==> Compare(columns, rows[i], rows[j]) <= 0
  }

  ghost predicate Agree(a: Row, b: Row, names: set<string>) {
    forall name :: name in names ==> a.At(name) == b.At(name)
  }

  /** On rows that agree on `seen`, dropping the columns in `seen` and every later repeat
    * changes no comparison, whatever direction or null placement the repeats carry. */
  lemma {:induction false} RepeatsNeverDecide(columns: seq<SortColumn>, seen: set<string>, a: Row, b: Row)
    requires Agree(a, b, seen)
    ensures Compare(Unseen(columns, Name, seen), a, b) == Compare(columns, a, b)
  {
    if columns != [] {
      if Name(columns[0]) in seen {
        RepeatsNeverDecide(columns[1..], seen, a, b);
      } else if a.At(columns[0].name) == b.At(columns[0].name) {
        RepeatsNeverDecide(columns[1..], seen + {columns[0].name}, a, b);
      }
    }
  }

  lemma {:induction false} CompareConcat(front: seq<SortColumn>, back: seq<SortColumn>, a: Row, b: Row)
    ensures Compare(front + back, a, b)
         == if Compare(front, a, b) != 0 then Compare(front, a, b) else Compare(back, a, b)
  {
    if front == [] {
      assert front + back == back;
    } else {
      assert (front + back)[1..] == front[1..] + back;
      CompareConcat(front[1..], back, a, b);
    }
  }

  function Without(columns: seq<SortColumn>, names: seq<string>): seq<SortColumn> {
    if columns == [] then []
    else if columns[0].name in names then Without(columns[1..], names)
    else [columns[0]] + Without(columns[1..], names)
  }

  /** Columns on which two rows agree may be removed from a specification. */
  lemma {:induction false} ConstantColumnsNeverDecide(columns: seq<SortColumn>, names: seq<string>, a: Row, b: Row)
    requires forall i :: 0 <= i < |names| ==> a.At(names[i]) == b.At(names[i])
    ensures Compare(Without(columns, names), a, b) == Compare(columns, a, b)
  {
    if columns != [] {
      ConstantColumnsNeverDecide(columns[1..], names, a, b);
    }
  }

  function Ascend(names: seq<string>): (columns: seq<SortColumn>) {
    seq(|names|, i requires 0 <= i < |names| => Conventional(names[i], Ascending))
  }

  // ---------- the specification object ----------

  class SortSpec {
    var columns: seq<SortColumn>

    constructor (columns: seq<SortColumn>)
      ensures this.columns == columns
    {
      this.columns := columns;
    }

    /** The conversion from a list of names: ascending, first occurrences only. */
    constructor FromNames(names: seq<string>)
      ensures columns == Ascend(Unseen(names, Itself, {}))
    {
      columns := [];
      new;
      var kept := UniqueBy(names, Itself);
      columns := Ascend(kept);
    }

    method WithoutColumnsNamed(names: seq<string>) returns (spec: SortSpec)
      ensures fresh(spec) && spec.columns == Without(columns, names)
    {
      spec := new SortSpec(Without(columns, names));
    }

    method Extend(other: SortSpec)
      modifies this
      ensures columns == Unseen(old(columns) + old(other.columns), Name, {})
    {
      columns := UniqueBy(columns + other.columns, Name);
    }
  }

  /** What a run sorts by, and the ordering it then promises of every output. */
  datatype Composition = Composition(full: seq<SortColumn>, outputOrdering: seq<SortColumn>)

  function Composed(strategy: Strategy, partition: seq<string>, user: seq<SortColumn>): Composition {
    var rest := Without(user, partition);
    var front := if strategy.SortSingle? then Ascend(Unseen(partition, Itself, {})) else [];
    Composition(Unseen(front + rest, Name, {}), rest)
  }

  /** The part of a run that settles the sort order. */
  method Compose(strategy: Strategy, partition: seq<string>, sortBy: Option<SortSpec>)
    returns (composition: Composition)
    ensures composition == Composed(strategy, partition, if sortBy.Some? then old(sortBy.value.columns) else [])
  {
    var fullSpec := new SortSpec([]);
    if strategy.SortSingle? {
      fullSpec := new SortSpec.FromNames(partition);
    }
    var userSpec := new SortSpec(if sortBy.Some? then sortBy.value.columns else []);
    var rest := userSpec.WithoutColumnsNamed(partition);
    fullSpec.Extend(rest);
    composition := Composition(fullSpec.columns, rest.columns);
  }

  // ---------- the composition is faithful ----------

  ghost predicate SamePartition(partition: seq<string>, a: Row, b: Row) {
    forall i :: 0 <= i < |partition| ==> a.At(partition[i]) == b.At(partition[i])
  }

  lemma {:induction false} AscendDecides(names: seq<string>, a: Row, b: Row)
    ensures Compare(Ascend(names), a, b) == 0 <==> SamePartition(names, a, b)
  {
    if names != [] {
      AscendDecides(names[1..], a, b);
      assert Ascend(names)[1..] == Ascend(names[1..]);
      assert SamePartition(names, a, b) ==> a.At(names[0]) == b.At(names[0]);
      if a.At(names[0]) == b.At(names[0]) && SamePartition(names[1..], a, b) {
        forall i | 0 <= i < |names| ensures a.At(names[i]) == b.At(names[i]) {
          if i > 0 {
            assert names[i] == names[1..][i - 1];
          }
        }
      }
      if SamePartition(names, a, b) {
        forall i | 0 <= i < |names[1..]| ensures a.At(names[1..][i]) == b.At(names[1..][i]) {
          assert names[1..][i] == names[i + 1];
        }
      }
    }
  }

  lemma UniqueNamesPartitionAlike(names: seq<string>, a: Row, b: Row)
    ensures SamePartition(Unseen(names, Itself, {}), a, b) <==> SamePartition(names, a, b)
  {
    var kept := Unseen(names, Itself, {});
    if SamePartition(kept, a, b) {
      forall n | 0 <= n < |names| ensures a.At(names[n]) == b.At(names[n]) {
        assert Itself(names[n]) == names[n];
        UnseenCovers(names, Itself, {}, names[n]);
        var i :| 0 <= i < |kept| && Itself(kept[i]) == names[n];
        assert a.At(kept[i]) == b.At(kept[i]);
      }
    }
    if SamePartition(names, a, b) {
      forall i | 0 <= i < |kept| ensures a.At(kept[i]) == b.At(kept[i]) {
        assert Itself(kept[i]) == kept[i];
        UnseenCovers(names, Itself, {}, kept[i]);
        var n :| 0 <= n < |names| && Itself(names[n]) == kept[i];
        assert a.At(names[n]) == b.At(names[n]);
      }
    }
  }

  /** Under every strategy the full specification compares first by partition (when it sorts
    * by it at all), then as the user's specification does. */
  lemma FullComparison(strategy: Strategy, partition: seq<string>, user: seq<SortColumn>, a: Row, b: Row)
    ensures SamePartition(partition, a, b) ==>
              && Compare(Composed(strategy, partition, user).full, a, b) == Compare(user, a, b)
              && Compare(Composed(strategy, partition, user).outputOrdering, a, b) == Compare(user, a, b)
    ensures strategy.SortSingle? && !SamePartition(partition, a, b) ==>
              && Compare(Composed(strategy, partition, user).full, a, b)
                 == Compare(Ascend(Unseen(partition, Itself, {})), a, b) != 0
  {
    var rest := Without(user, partition);
    var front := if strategy.SortSingle? then Ascend(Unseen(partition, Itself, {})) else [];
    RepeatsNeverDecide(front + rest, {}, a, b);
    CompareConcat(front, rest, a, b);
    UniqueNamesPartitionAlike(partition, a, b);
    AscendDecides(Unseen(partition, Itself, {}), a, b);
    if SamePartition(partition, a, b) {
      ConstantColumnsNeverDecide(user, partition, a, b);
    }
  }

  lemma {:induction false} WithoutExactly(columns: seq<SortColumn>, names: seq<string>, column: SortColumn)
    ensures column in Without(columns, names) <==> column in columns && column.name !in names
  {
    if columns != [] {
      WithoutExactly(columns[1..], names, column);
    }
  }

  /** The promised ordering holds exactly the user's columns that are no partition columns. Sort-single sorts by
    * the partition columns and those; the other strategies sort by those alone. */
  lemma ComposedColumns(strategy: Strategy, partition: seq<string>, user: seq<SortColumn>)
    ensures var composed := Composed(strategy, partition, user);
      && (forall column ::
            column in composed.outputOrdering <==> column in user && column.name !in partition)
      && (forall name ::
            (exists column :: column in composed.full && column.name == name) <==>
              || (strategy.SortSingle? && name in partition)
              || (exists column :: column in user && column.name == name && name !in partition))
      && (!strategy.SortSingle? ==>
            forall column :: column in composed.full ==> column in composed.outputOrdering)
  {
    var rest := Without(user, partition);
    var front := if strategy.SortSingle? then Ascend(Unseen(partition, Itself, {})) else [];
    forall column ensures column in rest <==> column in user && column.name !in partition {
      WithoutExactly(user, partition, column);
    }
    forall name
      ensures (exists column :: column in Composed(strategy, partition, user).full && column.name == name) <==>
                || (strategy.SortSingle? && name in partition)
                || (exists column :: column in user && column.name == name && name !in partition)
    {
      NamesKept(front + rest, name);
      if strategy.SortSingle? {
        AscendNames(partition, name);
      }
    }
    forall column | column in Unseen(rest, Name, {}) ensures column in rest {
      UnseenIsPart(rest, {}, column);
    }
    ConcatNothing(rest);
  }

  lemma ConcatNothing(columns: seq<SortColumn>)
    ensures [] + columns == columns
  {
  }

  lemma {:induction false} UnseenIsPart(columns: seq<SortColumn>, seen: set<string>, column: SortColumn)
    requires column in Unseen(columns, Name, seen)
    ensures column in columns
  {
    if Name(columns[0]) in seen {
      UnseenIsPart(columns[1..], seen, column);
    } else if column != columns[0] {
      UnseenIsPart(columns[1..], seen + {Name(columns[0])}, column);
    }
  }

  /** Dropping repeats loses no name. */
  lemma NamesKept(columns: seq<SortColumn>, name: string)
    ensures (exists column :: column in Unseen(columns, Name, {}) && column.name == name) <==>
              exists column :: column in columns && column.name == name
  {
    var kept := Unseen(columns, Name, {});
    UnseenCovers(columns, Name, {}, name);
    if column :| column in columns && column.name == name {
      var n :| 0 <= n < |columns| && columns[n] == column;
      assert Name(columns[n]) == name;
      var i :| 0 <= i < |kept| && Name(kept[i]) == name;
      assert kept[i] in kept && kept[i].name == name;
    }
    if column :| column in kept && column.name == name {
      UnseenIsPart(columns, {}, column);
    }
  }

  lemma AscendNames(names: seq<string>, name: string)
    ensures (exists column :: column in Ascend(Unseen(names, Itself, {})) && column.name == name) <==> name in names
  {
    var kept := Unseen(names, Itself, {});
    UnseenCovers(names, Itself, {}, name);
    if name in names {
      var n :| 0 <= n < |names| && names[n] == name;
      assert Itself(names[n]) == name;
      var i :| 0 <= i < |kept| && Itself(kept[i]) == name;
      assert Ascend(kept)[i].name == name && Ascend(kept)[i] in Ascend(kept);
    }
    if column :| column in Ascend(kept) && column.name == name {
      var i :| 0 <= i < |kept| && Ascend(kept)[i] == column;
      assert Itself(kept[i]) == name;
    }
  }

  /** Every comparison of ordered values by one column is antisymmetric and transitive. */
  lemma ValuesAreOrdered(x: Option<int>, y: Option<int>, z: Option<int>, column: SortColumn)
    ensures CompareValues(x, y, column) == -CompareValues(y, x, column)
    ensures CompareValues(x, y, column) <= 0 && CompareValues(y, z, column) <= 0 ==> CompareValues(x, z, column) <= 0
    ensures CompareValues(x, y, column) == 0 <==> x == y
  {
  }

  /** A row between two rows that compare equal compares equal to both. */
  lemma {:induction false} Squeezed(columns: seq<SortColumn>, a: Row, b: Row, c: Row)
    requires Compare(columns, a, b) <= 0 && Compare(columns, b, c) <= 0 && Compare(columns, a, c) == 0
    ensures Compare(columns, a, b) == 0
  {
    if columns != [] {
      var name := columns[0].name;
      ValuesAreOrdered(a.At(name), b.At(name), c.At(name), columns[0]);
      ValuesAreOrdered(b.At(name), c.At(name), a.At(name), columns[0]);
      assert CompareValues(a.At(name), c.At(name), columns[0]) == 0;
      assert CompareValues(a.At(name), b.At(name), columns[0]) == 0;
      Squeezed(columns[1..], a, b, c);
    }
  }

  /** A stream sorted by the composed specification keeps each partition's rows together. */
  lemma PartitionsAreContiguous(partition: seq<string>, user: seq<SortColumn>, rows: seq<Row>, i: nat, j: nat, k: nat)
    requires SortedBy(Composed(SortSingle, partition, user).full, rows)
    requires i < j < k < |rows| && SamePartition(partition, rows[i], rows[k])
    ensures SamePartition(partition, rows[i], rows[j])
  {
    var front := Ascend(Unseen(partition, Itself, {}));
    FrontIsSorted(partition, user, rows, i, j);
    FrontIsSorted(partition, user, rows, j, k);
    UniqueNamesPartitionAlike(partition, rows[i], rows[k]);
    UniqueNamesPartitionAlike(partition, rows[i], rows[j]);
    AscendDecides(Unseen(partition, Itself, {}), rows[i], rows[k]);
    AscendDecides(Unseen(partition, Itself, {}), rows[i], rows[j]);
    Squeezed(front, rows[i], rows[j], rows[k]);
  }

  lemma FrontIsSorted(partition: seq<string>, user: seq<SortColumn>, rows: seq<Row>, i: nat, j: nat)
    requires SortedBy(Composed(SortSingle, partition, user).full, rows) && i < j < |rows|
    ensures Compare(Ascend(Unseen(partition, Itself, {})), rows[i], rows[j]) <= 0
  {
    FullComparison(SortSingle, partition, user, rows[i], rows[j]);
    UniqueNamesPartitionAlike(partition, rows[i], rows[j]);
    AscendDecides(Unseen(partition, Itself, {}), rows[i], rows[j]);
  }

  /** The rows of one partition, in stream order. */
  ghost function PartitionRows(partition: seq<string>, member: Row, rows: seq<Row>): seq<Row> {
    if rows == [] then []
    else if SamePartition(partition, member, rows[0]) then [rows[0]] + PartitionRows(partition, member, rows[1..])
    else PartitionRows(partition, member, rows[1..])
  }

  lemma {:induction false} HeadBeforeMembers(
    columns: seq<SortColumn>, head: Row, partition: seq<string>, member: Row, rows: seq<Row>)
    requires forall n ::
      0 <= n < |rows| && SamePartition(partition, member, rows[n]) ==> Compare(columns, head, rows[n]) <= 0
    ensures Before(columns, head, PartitionRows(partition, member, rows))
  {
    if rows != [] {
      HeadBeforeMembers(columns, head, partition, member, rows[1..]);
      if SamePartition(partition, member, rows[0]) {
        assert Compare(columns, head, rows[0]) <= 0;
        BeforeOneMore(columns, head, rows[0], PartitionRows(partition, member, rows[1..]));
      }
    }
  }

  predicate Before(columns: seq<SortColumn>, head: Row, rows: seq<Row>) {
    forall i :: 0 <= i < |rows| ==> Compare(columns, head, rows[i]) <= 0
  }

  lemma BeforeOneMore(columns: seq<SortColumn>, head: Row, next: Row, rows: seq<Row>)
    requires Before(columns, head, rows) && Compare(columns, head, next) <= 0
    ensures Before(columns, head, [next] + rows)
  {
  }

  lemma {:induction false} MembersAreSorted(
    columns: seq<SortColumn>, partition: seq<string>, member: Row, rows: seq<Row>)
    requires forall i, j ::
      (0 <= i < j < |rows| && SamePartition(partition, member, rows[i]) && SamePartition(partition, member, rows[j]))
      ==> Compare(columns, rows[i], rows[j]) <= 0
    ensures SortedBy(columns, PartitionRows(partition, member, rows))
  {
    if rows != [] {
      MembersAreSorted(columns, partition, member, rows[1..]);
      if SamePartition(partition, member, rows[0]) {
        HeadBeforeMembers(columns, rows[0], partition, member, rows[1..]);
        HeadFirst(columns, rows[0], PartitionRows(partition, member, rows[1..]));
      }
    }
  }

  lemma HeadFirst(columns: seq<SortColumn>, head: Row, later: seq<Row>)
    requires SortedBy(columns, later)
    requires Before(columns, head, later)
    ensures SortedBy(columns, [head] + later)
  {
    var rows := [head] + later;
    forall i, j | 0 <= i < j < |rows| ensures Compare(columns, rows[i], rows[j]) <= 0 {
      assert rows[j] == later[j - 1];
      assert i > 0 ==> rows[i] == later[i - 1];
    }
  }

  /** Under every strategy, each partition of a stream sorted by the composed specification is
    * sorted by the user's own specification and by the ordering promised of the output. */
  lemma EveryPartitionIsSorted(
    strategy: Strategy, partition: seq<string>, user: seq<SortColumn>, rows: seq<Row>, member: Row)
    requires SortedBy(Composed(strategy, partition, user).full, rows)
    ensures SortedBy(user, PartitionRows(partition, member, rows))
    ensures SortedBy(Composed(strategy, partition, user).outputOrdering, PartitionRows(partition, member, rows))
  {
    var composition := Composed(strategy, partition, user);
    forall i, j | 0 <= i < j < |rows| && SamePartition(partition, member, rows[i])
                  && SamePartition(partition, member, rows[j])
      ensures Compare(user, rows[i], rows[j]) <= 0 && Compare(composition.outputOrdering, rows[i], rows[j]) <= 0
    {
      assert SamePartition(partition, rows[i], rows[j]);
      FullComparison(strategy, partition, user, rows[i], rows[j]);
    }
    MembersAreSorted(user, partition, member, rows);
    MembersAreSorted(composition.outputOrdering, partition, member, rows);
  }

}
