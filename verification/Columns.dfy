/**
 What a column of a query denotes (pushdown.rs): the field its name reaches in the schema, the cell that
 field has in a row, and that the resolver finds exactly this.
 */
module Columns {
  import opened Wrappers
  import opened Text
  import opened GoogleSql
  import opened SqlSyntax
  import opened Pushdown

  // ---------------------------------------------------------------------------------------------------
  // Rows by position
  // ---------------------------------------------------------------------------------------------------

  /** A row of the table, one cell per field of the schema, in the order of the fields. */
  datatype Cell = NullCell | ScalarCell(value: Value) | RecordCell(cells: seq<Cell>)

  predicate TypeAccepts(dataType: DataType, value: Value) {
    match dataType
    case Boolean => value.BoolValue?
    case Int64 => value.IntValue? && MIN_INT64 <= value.number <= MAX_INT64
    case Utf8 => value.StringValue?
    case Binary => value.BytesValue?
    case Decimal128(_, scale) => if scale < 0 then value.OtherValue? else value.DecimalValue? && value.scale == scale
    case Decimal256(_, scale) => if scale < 0 then value.OtherValue? else value.DecimalValue? && value.scale == scale
    case Date32 => value.DateValue?
    case Time64(_) => value.TimeValue?
    case Timestamp(_, timezone) => if timezone.None? then value.DatetimeValue? else value.TimestampValue?
    case Struct(_) => false
    case _ => value.OtherValue?
  }

  predicate CellConforms(dataType: DataType, cell: Cell)
    decreases cell, 0
  {
    match cell
    case NullCell => true
    case ScalarCell(value) => TypeAccepts(dataType, value)
    case RecordCell(cells) => dataType.Struct? && Conforms(dataType.fields, cells)
  }

  predicate Conforms(fields: seq<Field>, cells: seq<Cell>)
    decreases cells, 1
  {
    |fields| == |cells|
    && (fields == [] || (CellConforms(fields[0].dataType, cells[0]) && Conforms(fields[1..], cells[1..])))
  }

  /** The same row as the server holds it, each cell under its field's name. */
  function Named(fields: seq<Field>, cells: seq<Cell>): Row
    decreases cells, 1
  {
    if fields == [] || cells == [] then []
    else [NamedCell(fields[0].name, CellValue(fields[0].dataType, cells[0]))] + Named(fields[1..], cells[1..])
  }

  function CellValue(dataType: DataType, cell: Cell): Option<Value>
    decreases cell, 0
  {
    match cell
    case NullCell => None
    case ScalarCell(value) => Some(value)
    case RecordCell(cells) => if dataType.Struct? then Some(StructValue(Named(dataType.fields, cells))) else None
  }

  // ---------------------------------------------------------------------------------------------------
  // What a name denotes
  // ---------------------------------------------------------------------------------------------------

  /** Following names through the fields, each time to the first field of the name, ends at a field. */
  predicate Walks(fields: seq<Field>, names: seq<string>, steps: seq<nat>, end: Field)
    decreases |names|
  {
    && names != [] && |steps| == |names| && steps[0] < |fields|
    && fields[steps[0]].name == names[0]
    && (forall j :: 0 <= j < steps[0] ==> fields[j].name != names[0])
    && (if |names| == 1 then fields[steps[0]] == end
        else
          && fields[steps[0]].dataType.Struct?
          && Walks(fields[steps[0]].dataType.fields, names[1..], steps[1..], end))
  }

  /** The cell at the same positions of a row; below a null record every cell is null. */
  function CellAlong(cells: seq<Cell>, steps: seq<nat>): Cell
    decreases |steps|
  {
    if steps == [] || steps[0] >= |cells| then NullCell
    else if |steps| == 1 then cells[steps[0]]
    else
      match cells[steps[0]]
      case RecordCell(inner) => CellAlong(inner, steps[1..])
      case _ => NullCell
  }

  predicate TopLevel(schema: Schema, name: string) {
    exists i :: 0 <= i < |schema| && schema[i].name == name
  }

  /** A name is a field of the table as a whole, or else the path of names between its dots. */
  ghost predicate Spells(schema: Schema, names: seq<string>, name: string) {
    if TopLevel(schema, name) then names == [name]
    else names != [] && (forall i :: 0 <= i < |names| ==> '.' !in names[i]) && Join(names, ".") == name
  }

  ghost predicate Reaches(schema: Schema, name: string, names: seq<string>, steps: seq<nat>, end: Field) {
    Spells(schema, names, name) && Walks(schema, names, steps, end)
  }

  ghost predicate ReachesSupported(schema: Schema, name: string) {
    exists names, steps, end :: Reaches(schema, name, names, steps, end) && SupportedField(end)
  }

  /** A field of the column's own name comes first, a supported field of the qualified name next, then
   the path the column's own name spells. */
  ghost predicate Denotes(
    schema: Schema, relation: Relation, name: string, names: seq<string>, steps: seq<nat>, end: Field)
  {
    if !TopLevel(schema, name) && relation.Bare? && ReachesSupported(schema, relation.table + "." + name) then
      Reaches(schema, relation.table + "." + name, names, steps, end)
    else Reaches(schema, name, names, steps, end)
  }

  lemma {:induction false} WalksAreUnique(
    fields: seq<Field>, names: seq<string>, steps: seq<nat>, end: Field, steps': seq<nat>, end': Field)
    requires Walks(fields, names, steps, end) && Walks(fields, names, steps', end')
    ensures steps == steps' && end == end'
    decreases |names|
  {
    assert steps[0] == steps'[0] by {
      assert fields[steps[0]].name == names[0] && fields[steps'[0]].name == names[0];
    }
    HeadAndTail(steps);
    HeadAndTail(steps');
    if |names| > 1 {
      WalksAreUnique(fields[steps[0]].dataType.fields, names[1..], steps[1..], end, steps'[1..], end');
    } else {
      assert steps[1..] == [] && steps'[1..] == [];
    }
  }

  lemma SpellingIsUnique(schema: Schema, names: seq<string>, names': seq<string>, name: string)
    requires Spells(schema, names, name) && Spells(schema, names', name)
    ensures names == names'
  {
    if !TopLevel(schema, name) {
      assert "." == ['.'];
      SplitUndoesJoin(names, '.');
      SplitUndoesJoin(names', '.');
    }
  }

  lemma ReachedIsUnique(
    schema: Schema, name: string, names: seq<string>, steps: seq<nat>, end: Field,
    names': seq<string>, steps': seq<nat>, end': Field)
    requires Reaches(schema, name, names, steps, end) && Reaches(schema, name, names', steps', end')
    ensures names == names' && steps == steps' && end == end'
  {
    SpellingIsUnique(schema, names, names', name);
    WalksAreUnique(schema, names, steps, end, steps', end');
  }

  // ---------------------------------------------------------------------------------------------------
  // The resolver
  // ---------------------------------------------------------------------------------------------------

  lemma {:induction false} FieldNamedIsFirst(fields: seq<Field>, name: string) returns (i: nat)
    requires FieldNamed(fields, name).Some?
    ensures i < |fields| && fields[i] == FieldNamed(fields, name).value && fields[i].name == name
    ensures forall j :: 0 <= j < i ==> fields[j].name != name
  {
    if fields[0].name == name {
      i := 0;
    } else {
      var k := FieldNamedIsFirst(fields[1..], name);
      i := k + 1;
    }
  }

  lemma {:induction false} FirstIsFieldNamed(fields: seq<Field>, name: string, i: nat)
    requires i < |fields| && fields[i].name == name && forall j :: 0 <= j < i ==> fields[j].name != name
    ensures FieldNamed(fields, name) == Some(fields[i])
  {
    if i > 0 {
      assert fields[0].name != name;
      FirstIsFieldNamed(fields[1..], name, i - 1);
    }
  }

  lemma {:induction false} TopLevelIsNamed(schema: Schema, name: string)
    ensures FieldNamed(schema, name).Some? <==> TopLevel(schema, name)
  {
    if FieldNamed(schema, name).Some? {
      var i := FieldNamedIsFirst(schema, name);
    } else if TopLevel(schema, name) {
      var i :| 0 <= i < |schema| && schema[i].name == name;
      NotNamed(schema, name, i);
    }
  }

  lemma {:induction false} NotNamed(fields: seq<Field>, name: string, i: nat)
    requires FieldNamed(fields, name).None? && i < |fields|
    ensures fields[i].name != name
  {
    if i > 0 {
      NotNamed(fields[1..], name, i - 1);
    }
  }

  /** Where descending by names ends, from the fields the first name is looked up in. */
  function Descended(fields: seq<Field>, names: seq<string>): Option<Field>
    requires names != []
  {
    var first := FieldNamed(fields, names[0]);
    if first.None? then None else Descend(first.value, names[1..])
  }

  lemma {:induction false} DescentWalks(fields: seq<Field>, names: seq<string>) returns (steps: seq<nat>)
    requires names != [] && Descended(fields, names).Some?
    ensures Walks(fields, names, steps, Descended(fields, names).value)
    decreases |names|
  {
    var i := FieldNamedIsFirst(fields, names[0]);
    if |names| == 1 {
      steps := [i];
    } else {
      assert names[1..][1..] == names[2..];
      var rest := DescentWalks(fields[i].dataType.fields, names[1..]);
      steps := [i] + rest;
      AfterHead(i, rest);
    }
  }

  lemma {:induction false} WalkDescends(fields: seq<Field>, names: seq<string>, steps: seq<nat>, end: Field)
    requires Walks(fields, names, steps, end)
    ensures Descended(fields, names) == Some(end)
    decreases |names|
  {
    FirstIsFieldNamed(fields, names[0], steps[0]);
    if |names| > 1 {
      WalkDescends(fields[steps[0]].dataType.fields, names[1..], steps[1..], end);
      assert names[1..][1..] == names[2..];
    }
  }

  /** A path is resolved exactly when its name reaches a supported field, to that field's names and type. */
  lemma ResolvePathExactly(schema: Schema, name: string)
    ensures ResolvePath(schema, name).Some? <==> ReachesSupported(schema, name)
    ensures forall names, steps, end :: Reaches(schema, name, names, steps, end) && SupportedField(end) ==>
              ResolvePath(schema, name) == Some(ResolvedColumn(names, end.dataType))
  {
    if ResolvePath(schema, name).Some? {
      ResolvedIsReached(schema, name);
    }
    forall names, steps, end | Reaches(schema, name, names, steps, end) && SupportedField(end)
      ensures ResolvePath(schema, name) == Some(ResolvedColumn(names, end.dataType))
    {
      ReachedIsResolved(schema, name, names, steps, end);
    }
  }

  lemma ReachedIsResolved(schema: Schema, name: string, names: seq<string>, steps: seq<nat>, end: Field)
    requires Reaches(schema, name, names, steps, end) && SupportedField(end)
    ensures ResolvePath(schema, name) == Some(ResolvedColumn(names, end.dataType))
  {
    WalkDescends(schema, names, steps, end);
    TopLevelIsNamed(schema, name);
    if !TopLevel(schema, name) {
      assert "." == ['.'];
      SplitUndoesJoin(names, '.');
    }
  }

  lemma ResolvedIsReached(schema: Schema, name: string)
    requires ResolvePath(schema, name).Some?
    ensures ReachesSupported(schema, name)
  {
    TopLevelIsNamed(schema, name);
    var names := if TopLevel(schema, name) then [name] else Split(name, '.');
    if !TopLevel(schema, name) {
      assert "." == ['.'];
      JoinUndoesSplit(name, '.');
      forall i | 0 <= i < |names| ensures '.' !in names[i] {
        assert names[i] in names;
      }
    }
    var steps := DescentWalks(schema, names);
    assert Reaches(schema, name, names, steps, Descended(schema, names).value);
  }

  /** A column is resolved exactly when it denotes a supported field, to that field's names and type. */
  lemma ResolveColumnExactly(schema: Schema, relation: Relation, name: string)
    ensures ResolveColumn(schema, Column(relation, name)).Some? <==>
              exists names, steps, end :: Denotes(schema, relation, name, names, steps, end) && SupportedField(end)
    ensures forall names, steps, end :: Denotes(schema, relation, name, names, steps, end) && SupportedField(end) ==>
              ResolveColumn(schema, Column(relation, name)) == Some(ResolvedColumn(names, end.dataType))
  {
    TopLevelIsNamed(schema, name);
    ResolvePathExactly(schema, name);
    if relation.Bare? {
      ResolvePathExactly(schema, relation.table + "." + name);
    }
    var chosen :=
      if !TopLevel(schema, name) && relation.Bare? && ReachesSupported(schema, relation.table + "." + name)
      then relation.table + "." + name else name;
    assert ResolveColumn(schema, Column(relation, name)) == ResolvePath(schema, chosen);
    if ResolvePath(schema, chosen).Some? {
      var names, steps, end :| Reaches(schema, chosen, names, steps, end) && SupportedField(end);
      assert Denotes(schema, relation, name, names, steps, end);
    }
    forall names, steps, end | Denotes(schema, relation, name, names, steps, end) && SupportedField(end)
      ensures ResolveColumn(schema, Column(relation, name)) == Some(ResolvedColumn(names, end.dataType))
    {
      assert Reaches(schema, chosen, names, steps, end);
    }
  }

  // ---------------------------------------------------------------------------------------------------
  // The cell a column denotes
  // ---------------------------------------------------------------------------------------------------

  /** What a column denotes on a row, or None when its name denotes nothing. */
  ghost function ColumnValue(schema: Schema, cells: seq<Cell>, relation: Relation, name: string)
    : Option<Option<Value>>
  {
    if exists names, steps, end :: Denotes(schema, relation, name, names, steps, end) then
      var names, steps, end :| Denotes(schema, relation, name, names, steps, end);
      Some(CellValue(end.dataType, CellAlong(cells, steps)))
    else None
  }

  lemma SkipStep(cells: seq<Cell>, steps: seq<nat>)
    requires steps != [] && steps[0] > 0 && cells != []
    ensures CellAlong(cells[1..], steps[0 := steps[0] - 1]) == CellAlong(cells, steps)
  {
    assert steps[0 := steps[0] - 1][1..] == steps[1..];
  }

  /** Looking a path up by names in the server's row gives the cell at the positions it walks. */
  lemma {:induction false} LookupWalks(
    fields: seq<Field>, names: seq<string>, steps: seq<nat>, end: Field, cells: seq<Cell>)
    requires Walks(fields, names, steps, end) && Conforms(fields, cells)
    ensures Lookup(Named(fields, cells), names) == CellValue(end.dataType, CellAlong(cells, steps))
    ensures CellConforms(end.dataType, CellAlong(cells, steps))
    decreases |names|, |fields|
  {
    var row := Named(fields, cells);
    assert row[0] == NamedCell(fields[0].name, CellValue(fields[0].dataType, cells[0]));
    assert row[1..] == Named(fields[1..], cells[1..]);
    if steps[0] > 0 {
      assert fields[0].name != names[0];
      var shifted := steps[0 := steps[0] - 1];
      assert shifted[1..] == steps[1..];
      LookupWalks(fields[1..], names, shifted, end, cells[1..]);
      SkipStep(cells, steps);
    } else if |names| > 1 {
      match cells[0] {
        case RecordCell(inner) =>
          LookupWalks(fields[0].dataType.fields, names[1..], steps[1..], end, inner);
        case _ =>
      }
    }
  }

  /** On every conforming row, what the server finds under a resolved path is what the column denotes,
   and it is null or a value of the resolved type. */
  lemma ResolvedColumnIsDenoted(schema: Schema, cells: seq<Cell>, relation: Relation, name: string)
    requires ResolveColumn(schema, Column(relation, name)).Some? && Conforms(schema, cells)
    ensures var column := ResolveColumn(schema, Column(relation, name)).value;
            && column.path != []
            && ColumnValue(schema, cells, relation, name) == Some(Lookup(Named(schema, cells), column.path))
            && (Lookup(Named(schema, cells), column.path).Some? ==>
                  TypeAccepts(column.dataType, Lookup(Named(schema, cells), column.path).value))
  {
    ResolveColumnExactly(schema, relation, name);
    var names, steps, end :| Denotes(schema, relation, name, names, steps, end) && SupportedField(end);
    LookupWalks(schema, names, steps, end, cells);
    forall names', steps', end' | Denotes(schema, relation, name, names', steps', end')
      ensures names' == names && steps' == steps && end' == end
    {
      DenotedIsUnique(schema, relation, name, names, steps, end, names', steps', end');
    }
  }

  /** What the server reads under a resolved column's path is the value of the cell denoted, and null for a null. */
  lemma DenotedCellIsRead(
    schema: Schema, cells: seq<Cell>, relation: Relation, name: string, names: seq<string>, steps: seq<nat>, end: Field)
    requires ResolveColumn(schema, Column(relation, name)).Some? && Conforms(schema, cells)
    requires Denotes(schema, relation, name, names, steps, end)
    ensures var path := ResolveColumn(schema, Column(relation, name)).value.path;
            && path != []
            && (CellAlong(cells, steps).NullCell? ==> Lookup(Named(schema, cells), path) == None)
            && (CellAlong(cells, steps).ScalarCell? ==>
                  Lookup(Named(schema, cells), path) == Some(CellAlong(cells, steps).value))
  {
    ResolveColumnExactly(schema, relation, name);
    var names', steps', end' :| Denotes(schema, relation, name, names', steps', end') && SupportedField(end')
                                && ResolveColumn(schema, Column(relation, name)).value.path == names';
    DenotedIsUnique(schema, relation, name, names, steps, end, names', steps', end');
    LookupWalks(schema, names, steps, end, cells);
  }

  lemma DenotedIsUnique(
    schema: Schema, relation: Relation, name: string, names: seq<string>, steps: seq<nat>, end: Field,
    names': seq<string>, steps': seq<nat>, end': Field)
    requires Denotes(schema, relation, name, names, steps, end)
    requires Denotes(schema, relation, name, names', steps', end')
    ensures names == names' && steps == steps' && end == end'
  {
    var qualified := if relation.Bare? then relation.table + "." + name else name;
    if Reaches(schema, name, names, steps, end) && Reaches(schema, name, names', steps', end') {
      ReachedIsUnique(schema, name, names, steps, end, names', steps', end');
    } else {
      ReachedIsUnique(schema, qualified, names, steps, end, names', steps', end');
    }
  }
}
