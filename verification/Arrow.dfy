/** The part of Arrow's data model the library reads: types, fields, schemas and one-row batches. */
module Arrow {
  import opened Common

  datatype DataType =
    | Bool
    | Utf8
    | LargeUtf8
    | Date
    | Time
    | Timestamp
    | Null
    | Struct(fields: seq<Field>)
    | List(item: Field)
    | LargeList(item: Field)
    | Extension(name: string, storage: DataType)
    | Other(id: string)

  datatype Field = Field(name: string, dtype: DataType, nullable: bool, metadata: map<string, string>)

  datatype Schema = Schema(fields: seq<Field>, metadata: map<string, string>)

  datatype Scalar = NullScalar | Atom(repr: string) | ListOf(items: seq<Scalar>)

  /** A record batch with exactly one row. */
  datatype RowBatch = RowBatch(schema: Schema, row: seq<Scalar>)
  type OneRow = b: RowBatch | |b.schema.fields| == |b.row| witness RowBatch(Schema([], map[]), [])

  /** `[i for i, definition in enumerate(fields) if definition.name == name]`. */
  function Matches(fields: seq<Field>, name: string): (r: seq<nat>)
    ensures forall a :: 0 <= a < |r| ==> r[a] < |fields| && fields[r[a]].name == name
    ensures forall a, b :: 0 <= a < b < |r| ==> r[a] < r[b]
    ensures forall i :: 0 <= i < |fields| && fields[i].name == name ==> i in r
  {
    if fields == [] then []
    else
      var k := |fields| - 1;
      var init := fields[..k];
      assert forall i :: 0 <= i < k ==> init[i] == fields[i];
      Matches(init, name) + (if fields[k].name == name then [k] else [])
  }

  ghost predicate UniqueAt(fields: seq<Field>, name: string, i: nat) {
    && i < |fields| && fields[i].name == name
    && forall j :: 0 <= j < |fields| && fields[j].name == name ==> j == i
  }

  /** The position of the only field called `name`, if there is exactly one. */
  function Find(fields: seq<Field>, name: string): (r: Option<nat>)
    ensures r.Some? ==> r.value < |fields| && fields[r.value].name == name
  {
    var m := Matches(fields, name);
    if |m| == 1 then Some(m[0]) else None
  }

  lemma FindSpec(fields: seq<Field>, name: string)
    ensures forall i: nat :: UniqueAt(fields, name, i) <==> Find(fields, name) == Some(i)
  {
    var m := Matches(fields, name);
    if |m| >= 2 {
      assert m[0] < m[1];
    }
  }
}
