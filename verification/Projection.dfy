/** From a requested column list to the columns of every output batch: which fields a session
  * asks for, which schema it must return, and how a returned batch is rearranged.
  */
module Projection {

  import opened FirstOccurrences
  import opened SchemaComparison
  import opened Wrappers

  /** Projecting a schema onto an index it does not have is an Arrow error that names the index and the
    * number of fields; the later check of the same indices never fails. */
  datatype ProjectionError = ArrowIndex(index: nat, fieldCount: nat) | ExecutionSchema

  datatype Request = Request(selectedFields: seq<string>, outputSchema: seq<Field>)

  predicate InRange(schema: seq<Field>, projection: Option<seq<nat>>) {
    projection.Some? ==> forall k :: 0 <= k < |projection.value| ==> projection.value[k] < |schema|
  }

  /** The columns a projection asks for, in its order and with its repeats. */
  function Projected(schema: seq<Field>, projection: Option<seq<nat>>): (fields: seq<Field>)
    requires InRange(schema, projection)
  {
    match projection
    case None => schema
    case Some(indices) => seq(|indices|, k requires 0 <= k < |indices| => schema[indices[k]])
  }

  function Names(fields: seq<Field>): seq<string> {
    seq(|fields|, i requires 0 <= i < |fields| => fields[i].name)
  }

  /** Each name once; a projection onto no column still asks for one, so that rows are counted.
    * No projection asks for no names, which means every field. */
  function Selected(schema: seq<Field>, projection: Option<seq<nat>>): seq<string>
    requires InRange(schema, projection)
  {
    if projection.None? then []
    else
      var names := Unseen(Names(Projected(schema, projection)), Itself, {});
      if names == [] && schema != [] then [schema[0].name] else names
  }

  method ProjectionRequest(schema: seq<Field>, projection: Option<seq<nat>>)
    returns (result: Result<Request, ProjectionError>)
    ensures result.Success? <==> InRange(schema, projection)
    ensures result.Success? ==>
      result.value == Request(Selected(schema, projection), Projected(schema, projection))
    ensures result.Failure? ==>
      exists k :: 0 <= k < |projection.value| && projection.value[k] >= |schema|
                  && (forall j :: 0 <= j < k ==> projection.value[j] < |schema|)
                  && result.error == ArrowIndex(projection.value[k], |schema|)
  {
    if projection.None? {
      return Success(Request([], schema));
    }
    var indices := projection.value;
    for k := 0 to |indices|
      invariant forall j :: 0 <= j < k ==> indices[j] < |schema|
    {
      if indices[k] >= |schema| {
        return Failure(ArrowIndex(indices[k], |schema|));
      }
    }
    var output := Projected(schema, projection);
    var selected := DistinctNames(Names(output));
    if selected == [] && schema != [] {
      selected := [schema[0].name];
    }
    result := Success(Request(selected, output));
  }

  /** Appends each name that the list does not contain yet. */
  method DistinctNames(names: seq<string>) returns (fields: seq<string>)
    ensures fields == Unseen(names, Itself, {})
  {
    fields := [];
    ghost var seen: set<string> := {};
    for k := 0 to |names|
      invariant forall name :: name in fields <==> name in seen
      invariant fields + Unseen(names[k..], Itself, seen) == Unseen(names, Itself, {})
    {
      assert names[k..][1..] == names[k + 1..];
      if names[k] !in fields {
        seen := seen + {names[k]};
        fields := fields + [names[k]];
      }
    }
  }

  // ---------- the execution session's schema ----------

  function Filtered(fields: seq<Field>, names: seq<string>): seq<Field> {
    if fields == [] then []
    else if fields[0].name in names then [fields[0]] + Filtered(fields[1..], names)
    else Filtered(fields[1..], names)
  }

  /** Selected fields come back in the discovered order. */
  function Expected(discovered: seq<Field>, selected: seq<string>): seq<Field> {
    if selected == [] then discovered else Filtered(discovered, selected)
  }

  method ValidateExecutionSchema(returned: seq<Field>, discovered: seq<Field>, selected: seq<string>)
    returns (result: Result<(), ProjectionError>)
    ensures result == if returned == Expected(discovered, selected) then Success(()) else Failure(ExecutionSchema)
  {
    var expected := Expected(discovered, selected);
    if |returned| != |expected| {
      return Failure(ExecutionSchema);
    }
    for i := 0 to |returned|
      invariant forall j :: 0 <= j < i ==> returned[j] == expected[j]
    {
      if returned[i] != expected[i] {
        return Failure(ExecutionSchema);
      }
    }
    result := Success(());
  }

  // ---------- rearranging batches ----------

  /** The position of the first field of a name. */
  function IndexOf(fields: seq<Field>, name: string): (index: Option<nat>)
    ensures index.Some? ==> index.value < |fields| && fields[index.value].name == name
    ensures index.None? <==> forall i :: 0 <= i < |fields| ==> fields[i].name != name
  {
    if fields == [] then None
    else if fields[0].name == name then Some(0)
    else
      match IndexOf(fields[1..], name)
      case None => None
      case Some(i) => Some(i + 1)
  }

  predicate Found(returned: seq<Field>, field: Field) {
    IndexOf(returned, field.name).Some? && returned[IndexOf(returned, field.name).value] == field
  }

  method BatchProjection(returned: seq<Field>, output: seq<Field>) returns (result: Result<seq<nat>, ProjectionError>)
    ensures result.Success? <==> forall k :: 0 <= k < |output| ==> Found(returned, output[k])
    ensures result.Success? ==>
      && |result.value| == |output|
      && forall k :: 0 <= k < |output| ==>
           result.value[k] < |returned| && returned[result.value[k]] == output[k]
    ensures result.Failure? ==> result.error == ExecutionSchema
  {
    var columns: seq<nat> := [];
    for k := 0 to |output|
      invariant |columns| == k
      invariant forall j :: 0 <= j < k ==>
        Found(returned, output[j]) && columns[j] < |returned| && returned[columns[j]] == output[j]
    {
      var index := IndexOf(returned, output[k].name);
      if index.None? || returned[index.value] != output[k] {
        return Failure(ExecutionSchema);
      }
      columns := columns + [index.value];
    }
    result := Success(columns);
  }

  // ---------- the pieces fit ----------

  function FirstNamed(fields: seq<Field>, name: string): Option<Field> {
    if IndexOf(fields, name).Some? then Some(fields[IndexOf(fields, name).value]) else None
  }

  lemma {:induction false} FilteringKeepsFirsts(fields: seq<Field>, names: seq<string>, name: string)
    requires name in names
    ensures FirstNamed(Filtered(fields, names), name) == FirstNamed(fields, name)
  {
    if fields != [] {
      FilteringKeepsFirsts(fields[1..], names, name);
      var kept := Filtered(fields, names);
      if fields[0].name in names {
        assert kept[0] == fields[0] && kept[1..] == Filtered(fields[1..], names);
      }
    }
  }

  lemma ProjectedNamesAreSelected(schema: seq<Field>, indices: seq<nat>, k: nat)
    requires InRange(schema, Some(indices)) && k < |indices|
    ensures schema[indices[k]].name in Selected(schema, Some(indices))
  {
    var names := Names(Projected(schema, Some(indices)));
    assert Itself(names[k]) == schema[indices[k]].name;
    UnseenCovers(names, Itself, {}, names[k]);
    var kept := Unseen(names, Itself, {});
    var i :| 0 <= i < |kept| && Itself(kept[i]) == names[k];
    assert kept[i] == names[k];
  }

  /** The names a projection asks for, in the order of its indices. */
  ghost predicate Asks(schema: seq<Field>, projection: seq<nat>, name: string) {
    exists k :: 0 <= k < |projection| && projection[k] < |schema| && schema[projection[k]].name == name
  }

  lemma AskedAreSelected(schema: seq<Field>, indices: seq<nat>, name: string)
    requires InRange(schema, Some(indices)) && indices != []
    ensures name in Selected(schema, Some(indices)) <==> Asks(schema, indices, name)
  {
    var names := Names(Projected(schema, Some(indices)));
    var kept := Unseen(names, Itself, {});
    assert names[0] == schema[indices[0]].name;
    ProjectedNamesAreSelected(schema, indices, 0);
    if Asks(schema, indices, name) {
      var k :| 0 <= k < |indices| && schema[indices[k]].name == name;
      ProjectedNamesAreSelected(schema, indices, k);
    }
    if name in kept {
      var i :| 0 <= i < |kept| && kept[i] == name;
      assert Itself(kept[i]) == kept[i];
      UnseenCovers(names, Itself, {}, name);
      var n :| 0 <= n < |names| && Itself(names[n]) == name;
      assert names[n] == schema[indices[n]].name;
    }
  }

  /** A session asks for no name twice. Without a projection it asks for none, which means every field of the
    * table; for a projection, for exactly the names projected; and for an empty one, for the first field alone,
    * so that rows are counted. */
  lemma SelectionIsSound(schema: seq<Field>, projection: Option<seq<nat>>)
    requires InRange(schema, projection)
    ensures Distinct(Selected(schema, projection), Itself)
    ensures projection.None? ==> Selected(schema, projection) == []
    ensures projection == Some([]) ==>
              Selected(schema, projection) == if schema == [] then [] else [schema[0].name]
    ensures projection.Some? && projection.value != [] ==>
              forall name :: name in Selected(schema, projection) <==> Asks(schema, projection.value, name)
    ensures Selected(schema, projection) == [] ==> projection.None? || schema == []
    ensures forall i :: 0 <= i < |Selected(schema, projection)| ==>
              FirstNamed(schema, Selected(schema, projection)[i]).Some?
  {
    if projection.Some? {
      var names := Names(Projected(schema, projection));
      UnseenIsDistinct(names, Itself, {});
      if projection.value != [] {
        forall name ensures name in Selected(schema, projection) <==> Asks(schema, projection.value, name) {
          AskedAreSelected(schema, projection.value, name);
        }
        forall i | 0 <= i < |Selected(schema, projection)|
          ensures FirstNamed(schema, Selected(schema, projection)[i]).Some?
        {
          assert Selected(schema, projection)[i] in Selected(schema, projection);
        }
      }
    }
  }

  lemma FoundIsFirst(returned: seq<Field>, field: Field)
    ensures Found(returned, field) <==> FirstNamed(returned, field.name) == Some(field)
  {
  }

  /** For every projection in range and every schema a session may return, rearranging succeeds
    * exactly when each projected field is the first of its name in the table, and column k of
    * the output is then discovered field projection[k]. */
  lemma ProjectionIsExact(discovered: seq<Field>, projection: Option<seq<nat>>, returned: seq<Field>, k: nat)
    requires InRange(discovered, projection)
    requires returned == Expected(discovered, Selected(discovered, projection))
    requires k < |Projected(discovered, projection)|
    ensures var field := Projected(discovered, projection)[k];
      Found(returned, field) <==> FirstNamed(discovered, field.name) == Some(field)
  {
    var field := Projected(discovered, projection)[k];
    FoundIsFirst(returned, field);
    if projection.Some? {
      ProjectedNamesAreSelected(discovered, projection.value, k);
      FilteringKeepsFirsts(discovered, Selected(discovered, projection), field.name);
    }
  }

  ghost predicate DistinctFields(fields: seq<Field>) {
    forall i, j :: 0 <= i < j < |fields| ==> fields[i].name != fields[j].name
  }

  lemma {:induction false} DistinctAreFirst(fields: seq<Field>, n: nat)
    requires DistinctFields(fields) && n < |fields|
    ensures FirstNamed(fields, fields[n].name) == Some(fields[n])
  {
    if n > 0 {
      assert fields[0].name != fields[n].name;
      DistinctAreFirst(fields[1..], n - 1);
    }
  }

  /** A batch of the returned schema holds one column of data per returned field. */
  ghost predicate Carries<T>(columns: seq<T>, fields: seq<Field>, data: Field -> T) {
    |columns| == |fields| && forall i :: 0 <= i < |fields| ==> columns[i] == data(fields[i])
  }

  function Rearranged<T>(columns: seq<T>, indices: seq<nat>): seq<T>
    requires forall k :: 0 <= k < |indices| ==> indices[k] < |columns|
  {
    seq(|indices|, k requires 0 <= k < |indices| => columns[indices[k]])
  }

  /** The whole pipeline, over a table with distinct field names: any projection in range is
    * accepted, a session that passes validation is always rearranged, and whatever batch it
    * sends, output column k then carries the data of discovered field projection[k]. */
  method PlanScan<T>(
    discovered: seq<Field>, projection: Option<seq<nat>>, returned: seq<Field>, columns: seq<T>,
    ghost data: Field -> T)
    returns (result: Result<seq<T>, ProjectionError>)
    requires DistinctFields(discovered) && Carries(columns, returned, data)
    ensures result.Success? <==>
      InRange(discovered, projection) && returned == Expected(discovered, Selected(discovered, projection))
    ensures result.Success? ==> Carries(result.value, Projected(discovered, projection), data)
    ensures result.Success? && projection.None? ==>
              |result.value| == |discovered|
              && forall i :: 0 <= i < |discovered| ==> result.value[i] == data(discovered[i])
    ensures result.Success? && projection.Some? ==>
              |result.value| == |projection.value|
              && forall k :: 0 <= k < |projection.value| ==> result.value[k] == data(discovered[projection.value[k]])
  {
    var requested := ProjectionRequest(discovered, projection);
    if requested.Failure? {
      return Failure(requested.error);
    }
    var Request(selected, output) := requested.value;
    var valid := ValidateExecutionSchema(returned, discovered, selected);
    if valid.Failure? {
      return Failure(valid.error);
    }
    forall k | 0 <= k < |output| ensures Found(returned, output[k]) {
      ProjectionIsExact(discovered, projection, returned, k);
      DistinctAreFirst(discovered, if projection.Some? then projection.value[k] else k);
    }
    var indices := BatchProjection(returned, output);
    result := Success(Rearranged(columns, indices.value));
  }

}
