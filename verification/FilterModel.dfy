/** Filter Encoding v2: raw documents, the expression tree, and the pure functions over it. */
module FilterModel {
  import opened Common
  import opened Arrow

  const MAX_DEPTH := 64
  const MAX_NODES := 10_000
  const MAX_PREDICATES := 1_024
  const MAX_PREDICATE_IDS := 4_096
  const MAX_ARGUMENTS := 256
  const MAX_ID_BYTES := 128
  const UINT64_MAX := 0xFFFF_FFFF_FFFF_FFFF

  /** A decoded JSON value; object keys are already known to be distinct. */
  datatype Json =
    | JNull
    | JBool(b: bool)
    | JInt(n: int)
    | JFloat
    | JString(s: string)
    | JArray(items: seq<Json>)
    | JObject(members: map<string, Json>)

  datatype Mode = Required | Advisory
  datatype Source = Query | Join | TopN | SplitRefinement | OtherSource
  datatype ComparisonOp = Eq | Ne | Lt | Le | Gt | Ge | DistinctFrom | NotDistinctFrom
  datatype ArithmeticOp = Add | Subtract | Multiply | Divide | Modulo
  datatype StandardFunction = StartsWith | EndsWith | Contains | ListContains
  datatype Identity = Identity(namespace: string, name: string, version: nat)
  datatype Function = Standard(standard: StandardFunction) | Extended(identity: Identity)

  datatype KeyBatch = KeyBatch(fields: seq<Field>, columns: seq<seq<Scalar>>)

  datatype FilterSet =
    | LiteralSet(valueRef: nat, field: Field, values: seq<Scalar>)
    | ExternalSet(batchIndex: nat, columnIndex: nat, columnName: string, batch: KeyBatch)

  datatype Expr =
    | ColumnRef(columnIndex: nat, columnName: string, columnType: Option<DataType>)
    | FieldRef(arg: Expr, fieldIndex: nat, fieldName: string, fieldType: DataType)
    | Literal(ref: nat, field: Field, scalar: Scalar)
    | Comparison(comparison: ComparisonOp, left: Expr, right: Expr)
    | Boolean(conjunction: bool, children: seq<Expr>)
    | Not(arg: Expr)
    | IsNull(arg: Expr, negated: bool)
    | In(arg: Expr, set_: FilterSet, negated: bool)
    | Cast(arg: Expr, ref: nat, field: Field)
    | Arithmetic(arithmetic: ArithmeticOp, left: Expr, right: Expr)
    | Negate(arg: Expr)
    | Call(function_: Function, arguments: seq<Expr>, hasOptions: bool)
    | RuntimeFilter(algorithm: Identity, arg: Expr, ref: nat, field: Field, scalar: Scalar, passNulls: bool)

  datatype Predicate = Predicate(id: string, revision: nat, mode: Mode, source: Source, expression: Expr)

  /** The evaluation context carried by every filter batch. */
  datatype Context =
    | NoContext
    | Session(timeZone: string, calendar: string, collation: string, ieee: bool, integerDivision: bool,
              fingerprint: Option<string>)

  /** What stays the same for all the filter documents of one scan. */
  datatype Scan = Scan(
    outputSchema: Option<seq<Field>>,
    joinKeys: seq<KeyBatch>,
    extensions: set<Identity>,
    runtimeAlgorithms: set<Identity>)

  datatype NodeKind =
    | ColumnNode | FieldNode | LiteralNode | ComparisonNode | AndNode | OrNode | NotNode | IsNullNode | InNode
    | CastNode | ArithmeticNode | NegateNode | CallNode | RuntimeFilterNode

  const INTERSECTS_EXTENT := Identity("duckdb.spatial", "intersects_extent", 1)
  const RUNTIME_ALGORITHMS := {Identity("duckdb.runtime_filter", "bloom", 1),
                               Identity("duckdb.runtime_filter", "prefix_range", 1)}

  /** The operands of an expression, in the order the parser reads them. */
  function Kids(e: Expr): (r: seq<Expr>)
    ensures forall i :: 0 <= i < |r| ==> r[i] < e
  {
    match e
    case ColumnRef(_, _, _) | Literal(_, _, _) => []
    case FieldRef(a, _, _, _) => [a]
    case Comparison(_, l, r) => [l, r]
    case Boolean(_, es) => es
    case Not(a) => [a]
    case IsNull(a, _) => [a]
    case In(a, _, _) => [a]
    case Cast(a, _, _) => [a]
    case Arithmetic(_, l, r) => [l, r]
    case Negate(a) => [a]
    case Call(_, es, _) => es
    case RuntimeFilter(_, a, _, _, _, _) => [a]
  }

  /** Number of nodes. */
  function Size(e: Expr): (n: nat)
    ensures n >= 1
  {
    match e
    case ColumnRef(_, _, _) | Literal(_, _, _) => 1
    case Comparison(_, l, r) => 1 + Size(l) + Size(r)
    case Arithmetic(_, l, r) => 1 + Size(l) + Size(r)
    case Boolean(_, es) => 1 + SizeAll(es)
    case Call(_, es, _) => 1 + SizeAll(es)
    case _ => 1 + Size(e.arg)
  }

  function SizeAll(es: seq<Expr>): nat {
    if es == [] then 0 else SizeAll(es[..|es| - 1]) + Size(es[|es| - 1])
  }

  /** Number of nodes on the longest path from the root. */
  function Height(e: Expr): (n: nat)
    ensures n >= 1
  {
    match e
    case ColumnRef(_, _, _) | Literal(_, _, _) => 1
    case Comparison(_, l, r) => 1 + Max(Height(l), Height(r))
    case Arithmetic(_, l, r) => 1 + Max(Height(l), Height(r))
    case Boolean(_, es) => 1 + HeightAll(es)
    case Call(_, es, _) => 1 + HeightAll(es)
    case _ => 1 + Height(e.arg)
  }

  function HeightAll(es: seq<Expr>): nat {
    if es == [] then 0 else Max(HeightAll(es[..|es| - 1]), Height(es[|es| - 1]))
  }

  lemma MeasuresOfOne(a: Expr)
    ensures SizeAll([a]) == Size(a) && HeightAll([a]) == Height(a)
  {
    hide Size, Height;
    assert [a][..0] == [];
    assert SizeAll([]) == 0 && HeightAll([]) == 0;
  }

  lemma MeasuresOfTwo(a: Expr, b: Expr)
    ensures SizeAll([a, b]) == Size(a) + Size(b) && HeightAll([a, b]) == Max(Height(a), Height(b))
  {
    hide Size, Height, SizeAll, HeightAll;
    MeasuresOfOne(a);
    MeasuresOfAppend([a], b);
    assert [a] + [b] == [a, b];
  }

  lemma MeasuresOfKids(e: Expr)
    ensures Size(e) == 1 + SizeAll(Kids(e)) && Height(e) == 1 + HeightAll(Kids(e))
  {
    hide SizeAll, HeightAll;
    match e
    case ColumnRef(_, _, _) | Literal(_, _, _) => MeasuresOfNone();
    case Comparison(_, l, r) => MeasuresOfTwo(l, r);
    case Arithmetic(_, l, r) => MeasuresOfTwo(l, r);
    case Boolean(_, _) =>
    case Call(_, _, _) =>
    case _ => MeasuresOfOne(e.arg);
  }

  lemma MeasuresOfNone()
    ensures SizeAll([]) == 0 && HeightAll([]) == 0
  {
  }

  lemma MeasuresOfAppend(es: seq<Expr>, e: Expr)
    ensures SizeAll(es + [e]) == SizeAll(es) + Size(e)
    ensures HeightAll(es + [e]) == Max(HeightAll(es), Height(e))
  {
    assert (es + [e])[..|es|] == es;
  }

  lemma {:induction false} MeasuresOfElements(es: seq<Expr>, i: nat)
    requires i < |es|
    ensures SizeAll(es[..i]) + Size(es[i]) <= SizeAll(es)
    ensures Height(es[i]) <= HeightAll(es)
  {
    var k := |es| - 1;
    if i < k {
      MeasuresOfElements(es[..k], i);
      assert es[..k][..i] == es[..i];
    }
  }

  /** The statically known Arrow type of an expression, if there is one. */
  function TypeOf(e: Expr): (t: Option<DataType>)
    ensures e.Comparison? || e.Boolean? || e.Not? || e.IsNull? || e.In? || e.Call? || e.RuntimeFilter? ==>
            t == Some(Bool)
    ensures e.Arithmetic? || e.Negate? ==> t == None
  {
    match e
    case ColumnRef(_, _, t) => t
    case FieldRef(_, _, _, t) => Some(t)
    case Literal(_, f, _) => Some(f.dtype)
    case Cast(_, _, f) => Some(f.dtype)
    case Arithmetic(_, _, _) => None
    case Negate(_) => None
    case _ => Some(Bool)
  }

  predicate IsBoolean(e: Expr) { TypeOf(e) == Some(Bool) }

  predicate Contextual(t: Option<DataType>) {
    t.Some? && (t.value.Utf8? || t.value.LargeUtf8? || t.value.Date? || t.value.Time? || t.value.Timestamp?)
  }

  /** Whether an expression depends on DuckDB session settings. */
  predicate RequiresSession(e: Expr) {
    match e
    case ColumnRef(_, _, _) | Literal(_, _, _) => false
    case Arithmetic(op, l, r) => op.Divide? || op.Modulo? || RequiresSession(l) || RequiresSession(r)
    case Cast(a, _, f) => (Contextual(TypeOf(a)) && Contextual(Some(f.dtype))) || RequiresSession(a)
    case Comparison(_, l, r) => RequiresSession(l) || RequiresSession(r)
    case Boolean(_, es) => exists i | 0 <= i < |es| :: RequiresSession(es[i])
    case Call(_, es, _) => exists i | 0 <= i < |es| :: RequiresSession(es[i])
    case _ => RequiresSession(e.arg)
  }

  /** What the parser guarantees of every expression below a predicate root. */
  ghost predicate WellTyped(e: Expr, root: bool) {
    match e
    case ColumnRef(_, _, _) | Literal(_, _, _) => true
    case FieldRef(a, i, name, t) =>
      && WellTyped(a, false)
      && TypeOf(a).Some? && TypeOf(a).value.Struct?
      && i < |TypeOf(a).value.fields|
      && TypeOf(a).value.fields[i].name == name && TypeOf(a).value.fields[i].dtype == t
    case Comparison(_, l, r) => WellTyped(l, false) && WellTyped(r, false)
    case Arithmetic(_, l, r) => WellTyped(l, false) && WellTyped(r, false)
    case Boolean(_, es) =>
      |es| >= 2 && forall i :: 0 <= i < |es| ==> IsBoolean(es[i]) && WellTyped(es[i], false)
    case Not(a) => IsBoolean(a) && WellTyped(a, false)
    case Call(f, es, hasOptions) =>
      && |es| <= MAX_ARGUMENTS && !hasOptions && (f.Extended? ==> f.identity == INTERSECTS_EXTENT)
      && forall i :: 0 <= i < |es| ==> WellTyped(es[i], false)
    case RuntimeFilter(algorithm, a, _, _, _, _) =>
      root && algorithm in RUNTIME_ALGORITHMS && WellTyped(a, false)
    case _ => WellTyped(e.arg, false)
  }
}
