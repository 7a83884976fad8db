/**
 Which document means which expression: every expression is written out as a document of its own, member by member,
 and the parser reads exactly these documents, each as the one expression it was written from.
 */
module FilterDocument {
  import opened Common
  import opened Arrow
  import opened FilterModel
  import opened FilterParser
  import Bytes
  import Decimal

  // ---- Names -----------------------------------------------------------------------------------

  function NodeText(kind: NodeKind): string {
    match kind
    case ColumnNode => "column_ref"
    case FieldNode => "field_ref"
    case LiteralNode => "literal"
    case ComparisonNode => "comparison"
    case AndNode => "and"
    case OrNode => "or"
    case NotNode => "not"
    case IsNullNode => "is_null"
    case InNode => "in"
    case CastNode => "cast"
    case ArithmeticNode => "arithmetic"
    case NegateNode => "negate"
    case CallNode => "call"
    case RuntimeFilterNode => "runtime_filter"
  }

  function ComparisonText(op: ComparisonOp): string {
    match op
    case Eq => "eq"
    case Ne => "ne"
    case Lt => "lt"
    case Le => "le"
    case Gt => "gt"
    case Ge => "ge"
    case DistinctFrom => "distinct_from"
    case NotDistinctFrom => "not_distinct_from"
  }

  function ArithmeticText(op: ArithmeticOp): string {
    match op
    case Add => "add"
    case Subtract => "subtract"
    case Multiply => "multiply"
    case Divide => "divide"
    case Modulo => "modulo"
  }

  function FunctionText(f: StandardFunction): string {
    match f
    case StartsWith => "starts_with"
    case EndsWith => "ends_with"
    case Contains => "contains"
    case ListContains => "list_contains"
  }

  function ModeText(mode: Mode): string { if mode.Required? then "required" else "advisory" }

  function SourceText(source: Source): string {
    match source
    case Query => "query"
    case Join => "join"
    case TopN => "top_n"
    case SplitRefinement => "split_refinement"
    case OtherSource => "other"
  }

  lemma NodeTextIs(m: Members, kind: NodeKind)
    ensures KindOf(m) == Some(kind) <==> "node" in m && m["node"] == JString(NodeText(kind))
  {
  }

  lemma ComparisonTextIs(s: string, op: ComparisonOp)
    ensures ComparisonOpOf(s) == Some(op) <==> s == ComparisonText(op)
  {
  }

  lemma ArithmeticTextIs(s: string, op: ArithmeticOp)
    ensures ArithmeticOpOf(s) == Some(op) <==> s == ArithmeticText(op)
  {
  }

  lemma ComparisonTextIsSome(op: ComparisonOp)
    ensures ComparisonText(op) != ""
  {
  }

  lemma ArithmeticTextIsSome(op: ArithmeticOp)
    ensures ArithmeticText(op) != ""
  {
  }

  lemma FunctionTextIs(s: string, f: StandardFunction)
    ensures StandardFunctionOf(s) == Some(f) <==> s == FunctionText(f)
  {
  }

  lemma ModeTextIs(s: string, mode: Mode)
    ensures ModeOf(s) == Some(mode) <==> s == ModeText(mode)
  {
  }

  lemma SourceTextIs(s: string, source: Source)
    ensures SourceOf(s) == Some(source) <==> s == SourceText(source)
  {
  }

  // ---- Documents -------------------------------------------------------------------------------

  function ColumnDoc(index: nat, name: string): Json {
    JObject(map["node" := JString(NodeText(ColumnNode)), "column_index" := JInt(index), "column_name" := JString(name)])
  }

  function FieldDoc(arg: Json, index: nat, name: string): Json {
    JObject(map["node" := JString(NodeText(FieldNode)), "expression" := arg, "field_index" := JInt(index),
                "field_name" := JString(name)])
  }

  function LiteralDoc(ref: nat): Json {
    JObject(map["node" := JString(NodeText(LiteralNode)), "value_ref" := JInt(ref)])
  }

  function ComparisonDoc(op: ComparisonOp, left: Json, right: Json): Json {
    JObject(map["node" := JString(NodeText(ComparisonNode)), "op" := JString(ComparisonText(op)), "left" := left,
                "right" := right])
  }

  function BooleanDoc(conjunction: bool, children: seq<Json>): Json {
    JObject(map["node" := JString(NodeText(if conjunction then AndNode else OrNode)), "children" := JArray(children)])
  }

  function NotDoc(arg: Json): Json { JObject(map["node" := JString(NodeText(NotNode)), "expression" := arg]) }

  function IsNullDoc(arg: Json, negated: bool): Json {
    JObject(map["node" := JString(NodeText(IsNullNode)), "expression" := arg, "negated" := JBool(negated)])
  }

  function InDoc(arg: Json, members: Json, negated: bool): Json {
    JObject(map["node" := JString(NodeText(InNode)), "expression" := arg, "set" := members,
                "negated" := JBool(negated)])
  }

  function SetDoc(s: FilterSet): Json {
    match s
    case LiteralSet(ref, _, _) => JObject(map["kind" := JString("literal"), "value_ref" := JInt(ref)])
    case ExternalSet(batchIndex, columnIndex, name, _) =>
      JObject(map["kind" := JString("external"), "batch_index" := JInt(batchIndex),
                  "column_index" := JInt(columnIndex), "column_name" := JString(name)])
  }

  function CastDoc(arg: Json, ref: nat): Json {
    JObject(map["node" := JString(NodeText(CastNode)), "expression" := arg, "type_ref" := JInt(ref)])
  }

  function ArithmeticDoc(op: ArithmeticOp, left: Json, right: Json): Json {
    JObject(map["node" := JString(NodeText(ArithmeticNode)), "op" := JString(ArithmeticText(op)), "left" := left,
                "right" := right])
  }

  function NegateDoc(arg: Json): Json { JObject(map["node" := JString(NodeText(NegateNode)), "expression" := arg]) }

  function IdentityDoc(id: Identity): Json {
    JObject(map["namespace" := JString(id.namespace), "name" := JString(id.name), "version" := JInt(id.version)])
  }

  function FunctionDoc(f: Function): Json {
    match f
    case Standard(standard) => JString(FunctionText(standard))
    case Extended(identity) => IdentityDoc(identity)
  }

  function CallDoc(f: Function, arguments: seq<Json>): Json {
    JObject(map["node" := JString(NodeText(CallNode)), "function" := FunctionDoc(f), "arguments" := JArray(arguments)])
  }

  /** A call may also say that it has no options. */
  function CallWithOptions(f: Function, arguments: seq<Json>, options: Json): Json {
    JObject(map["node" := JString(NodeText(CallNode)), "function" := FunctionDoc(f), "arguments" := JArray(arguments),
                "options" := options])
  }

  function RuntimeFilterDoc(algorithm: Identity, arg: Json, ref: nat, passNulls: bool): Json {
    JObject(map["node" := JString(NodeText(RuntimeFilterNode)), "algorithm" := IdentityDoc(algorithm), "input" := arg,
                "artifact_ref" := JInt(ref), "null_handling" := JString(if passNulls then "pass" else "reject")])
  }

  /** The document of an expression. */
  function DocumentOf(e: Expr): Json {
    match e
    case ColumnRef(index, name, _) => ColumnDoc(index, name)
    case FieldRef(arg, index, name, _) => FieldDoc(DocumentOf(arg), index, name)
    case Literal(ref, _, _) => LiteralDoc(ref)
    case Comparison(op, left, right) => ComparisonDoc(op, DocumentOf(left), DocumentOf(right))
    case Boolean(conjunction, es) =>
      BooleanDoc(conjunction, seq(|es|, i requires 0 <= i < |es| => DocumentOf(es[i])))
    case Not(arg) => NotDoc(DocumentOf(arg))
    case IsNull(arg, negated) => IsNullDoc(DocumentOf(arg), negated)
    case In(arg, members, negated) => InDoc(DocumentOf(arg), SetDoc(members), negated)
    case Cast(arg, ref, _) => CastDoc(DocumentOf(arg), ref)
    case Arithmetic(op, left, right) => ArithmeticDoc(op, DocumentOf(left), DocumentOf(right))
    case Negate(arg) => NegateDoc(DocumentOf(arg))
    case Call(f, es, _) => CallDoc(f, seq(|es|, i requires 0 <= i < |es| => DocumentOf(es[i])))
    case RuntimeFilter(algorithm, arg, ref, _, _, passNulls) =>
      RuntimeFilterDoc(algorithm, DocumentOf(arg), ref, passNulls)
  }

  function MembersOf(raw: Json): Members { if raw.JObject? then raw.members else map[] }

  function Member(raw: Json, name: string): Json {
    if raw.JObject? && name in raw.members then raw.members[name] else JNull
  }

  function Items(raw: Json, name: string): seq<Json> {
    if Member(raw, name).JArray? then Member(raw, name).items else []
  }

  // ---- Arrow extension types -------------------------------------------------------------------

  /** The fields of a struct, or the item field of a list. */
  function Inner(f: Field): (r: seq<Field>)
    ensures forall i :: 0 <= i < |r| ==> r[i] < f
  {
    match f.dtype
    case Struct(fields) => fields
    case List(item) => [item]
    case LargeList(item) => [item]
    case _ => []
  }

  /** `g` is the field or somewhere inside it. */
  ghost predicate FieldInside(g: Field, f: Field)
    decreases f
  {
    g == f || exists i :: 0 <= i < |Inner(f)| && FieldInside(g, Inner(f)[i])
  }

  /** The names a field gives its extension type, in its metadata or by its type. */
  predicate NamesExtension(g: Field, name: string) {
    || ("ARROW:extension:name" in g.metadata && g.metadata["ARROW:extension:name"] == name)
    || (g.dtype.Extension? && g.dtype.name == name)
  }

  /** A field is accepted exactly when every extension named in it or inside it is one of the ten known ones. */
  lemma {:induction false} KnownExtensionsExactly(f: Field)
    ensures KnownExtensions(f)
            <==> forall g, name :: FieldInside(g, f) && NamesExtension(g, name) ==>
                   name in {"arrow.bool8", "arrow.json", "arrow.uuid", "geoarrow.linestring",
                            "geoarrow.multilinestring", "geoarrow.multipoint", "geoarrow.multipolygon",
                            "geoarrow.point", "geoarrow.polygon", "geoarrow.wkb"}
    decreases f
  {
    hide KnownExtensions, NamesExtension;
    var inner := Inner(f);
    forall i | 0 <= i < |inner|
      ensures KnownExtensions(inner[i])
              <==> forall g, name :: FieldInside(g, inner[i]) && NamesExtension(g, name) ==> name in KNOWN_EXTENSIONS
    {
      KnownExtensionsExactly(inner[i]);
    }
    KnownStep(f);
    assert FieldInside(f, f);
    if KnownExtensions(f) {
      forall g, name | FieldInside(g, f) && NamesExtension(g, name) ensures name in KNOWN_EXTENSIONS {
        if g != f {
          var i :| 0 <= i < |inner| && FieldInside(g, inner[i]);
          assert KnownExtensions(inner[i]);
        }
      }
    } else if i :| 0 <= i < |inner| && !KnownExtensions(inner[i]) {
      var g, name :| FieldInside(g, inner[i]) && NamesExtension(g, name) && name !in KNOWN_EXTENSIONS;
      assert FieldInside(g, f);
    }
  }

  lemma KnownStep(f: Field)
    ensures KnownExtensions(f)
            <==> && (forall name :: NamesExtension(f, name) ==> name in KNOWN_EXTENSIONS)
                 && forall i :: 0 <= i < |Inner(f)| ==> KnownExtensions(Inner(f)[i])
  {
    var inner := Inner(f);
    assert |inner| == 1 ==> (KnownExtensions(inner[0]) <==> forall i :: 0 <= i < |inner| ==> KnownExtensions(inner[i]));
    if "ARROW:extension:name" in f.metadata {
      assert NamesExtension(f, f.metadata["ARROW:extension:name"]);
    }
    if f.dtype.Extension? {
      assert NamesExtension(f, f.dtype.name);
    }
  }

  // ---- References ------------------------------------------------------------------------------

  /** The only payload column of this name is this one, and holds this value. */
  ghost predicate InRow(row: OneRow, prefix: string, ref: nat, field: Field, scalar: Scalar) {
    && ref <= UINT64_MAX && (prefix != "artifact" ==> KnownExtensions(field))
    && exists i: nat :: UniqueAt(row.schema.fields, prefix + "_" + Decimal.Render(ref), i)
                        && row.schema.fields[i] == field && row.row[i] == scalar
  }

  ghost predicate RefersToSet(scan: Scan, row: OneRow, s: FilterSet) {
    match s
    case LiteralSet(ref, field, values) =>
      InRow(row, "value", ref, field, ListOf(values)) && (field.dtype.List? || field.dtype.LargeList?)
    case ExternalSet(batchIndex, columnIndex, name, batch) =>
      && batchIndex < |scan.joinKeys| && batchIndex <= UINT64_MAX && batch == scan.joinKeys[batchIndex]
      && columnIndex < |batch.fields| && columnIndex <= UINT64_MAX && name != ""
      && batch.fields[columnIndex].name == name && KnownExtensions(batch.fields[columnIndex])
  }

  /** What a node refers to is there: columns in the schema, payload values in the row, key batches in the scan. */
  ghost predicate Refers(scan: Scan, row: OneRow, n: Expr) {
    match n
    case ColumnRef(index, name, t) =>
      && index <= UINT64_MAX && name != ""
      && (match scan.outputSchema
          case None => t == None
          case Some(schema) =>
            && index < |schema| && schema[index].name == name && KnownExtensions(schema[index])
            && t == Some(schema[index].dtype))
    case FieldRef(_, index, name, _) => index <= UINT64_MAX && name != ""
    case Literal(ref, field, scalar) => InRow(row, "value", ref, field, scalar)
    case Cast(_, ref, field) => InRow(row, "type", ref, field, NullScalar)
    case In(_, members, _) => RefersToSet(scan, row, members)
    case Call(Extended(identity), _, _) => identity in scan.extensions
    case RuntimeFilter(algorithm, _, ref, field, artifact, _) =>
      algorithm !in scan.runtimeAlgorithms && InRow(row, "artifact", ref, field, artifact)
    case _ => true
  }

  /** All its nodes refer to this scan and this row. */
  ghost predicate Belongs(scan: Scan, row: OneRow, e: Expr) {
    Refers(scan, row, e) && forall i :: 0 <= i < |Kids(e)| ==> Belongs(scan, row, Kids(e)[i])
  }

  lemma PayloadIs(row: OneRow, prefix: string, ref: nat, field: Field, scalar: Scalar)
    ensures var cell := Payload(row, prefix, ref);
            && (ref <= UINT64_MAX && cell.Some? && cell.value.0 == field && cell.value.1 == scalar
                <==> InRow(row, prefix, ref, field, scalar))
            && (cell == Some((field, scalar)) <==> cell.Some? && cell.value.0 == field && cell.value.1 == scalar)
  {
    hide KnownExtensions;
    FindSpec(row.schema.fields, PayloadName(prefix, ref));
  }

  // ---- One node --------------------------------------------------------------------------------

  function KindFor(e: Expr): NodeKind {
    match e
    case ColumnRef(_, _, _) => ColumnNode
    case FieldRef(_, _, _, _) => FieldNode
    case Literal(_, _, _) => LiteralNode
    case Comparison(_, _, _) => ComparisonNode
    case Boolean(conjunction, _) => if conjunction then AndNode else OrNode
    case Not(_) => NotNode
    case IsNull(_, _) => IsNullNode
    case In(_, _, _) => InNode
    case Cast(_, _, _) => CastNode
    case Arithmetic(_, _, _) => ArithmeticNode
    case Negate(_) => NegateNode
    case Call(_, _, _) => CallNode
    case RuntimeFilter(_, _, _, _, _, _) => RuntimeFilterNode
  }

  /** The operand documents of a node of this kind. */
  function Operands(raw: Json, e: Expr): seq<Json> {
    match e
    case ColumnRef(_, _, _) | Literal(_, _, _) => []
    case Comparison(_, _, _) | Arithmetic(_, _, _) => [Member(raw, "left"), Member(raw, "right")]
    case Boolean(_, _) => Items(raw, "children")
    case Call(_, _, _) => Items(raw, "arguments")
    case RuntimeFilter(_, _, _, _, _, _) => [Member(raw, "input")]
    case _ => [Member(raw, "expression")]
  }

  /** The document spells the node itself, whatever its operands are. */
  ghost predicate SpellsNode(raw: Json, e: Expr) {
    match e
    case ColumnRef(index, name, _) => raw == ColumnDoc(index, name)
    case FieldRef(_, index, name, _) => raw == FieldDoc(Member(raw, "expression"), index, name)
    case Literal(ref, _, _) => raw == LiteralDoc(ref)
    case Comparison(op, _, _) => raw == ComparisonDoc(op, Member(raw, "left"), Member(raw, "right"))
    case Boolean(conjunction, _) => raw == BooleanDoc(conjunction, Items(raw, "children"))
    case Not(_) => raw == NotDoc(Member(raw, "expression"))
    case IsNull(_, negated) => raw == IsNullDoc(Member(raw, "expression"), negated)
    case In(_, members, negated) => raw == InDoc(Member(raw, "expression"), SetDoc(members), negated)
    case Cast(_, ref, _) => raw == CastDoc(Member(raw, "expression"), ref)
    case Arithmetic(op, _, _) => raw == ArithmeticDoc(op, Member(raw, "left"), Member(raw, "right"))
    case Negate(_) => raw == NegateDoc(Member(raw, "expression"))
    case Call(f, _, hasOptions) =>
      var docs := Items(raw, "arguments");
      && !hasOptions
      && (raw == CallDoc(f, docs) || raw == CallWithOptions(f, docs, JNull)
          || (f.Extended? && raw == CallWithOptions(f, docs, JObject(map[]))))
    case RuntimeFilter(algorithm, _, ref, _, _, passNulls) =>
      raw == RuntimeFilterDoc(algorithm, Member(raw, "input"), ref, passNulls)
  }

  /** The document spells the expression: it is the expression's own but for calls that say they have no options. */
  ghost predicate Spells(raw: Json, e: Expr)
    decreases e
  {
    && SpellsNode(raw, e) && |Operands(raw, e)| == |Kids(e)|
    && forall i :: 0 <= i < |Kids(e)| ==> Spells(Operands(raw, e)[i], Kids(e)[i])
  }

  lemma {:induction false} DocumentSpells(e: Expr, root: bool)
    requires WellTyped(e, root)
    ensures Spells(DocumentOf(e), e)
    decreases e
  {
    hide NodeText, ComparisonText, ArithmeticText, FunctionText;
    var kids := Kids(e);
    forall i | 0 <= i < |kids| ensures Spells(DocumentOf(kids[i]), kids[i]) {
      DocumentSpells(kids[i], false);
    }
    OwnDocument(e);
  }

  /** The document of an expression is a node over the documents of its operands. */
  lemma OwnDocument(e: Expr)
    requires e.Call? ==> !e.hasOptions
    ensures SpellsNode(DocumentOf(e), e)
    ensures Operands(DocumentOf(e), e) == seq(|Kids(e)|, i requires 0 <= i < |Kids(e)| => DocumentOf(Kids(e)[i]))
  {
    hide DocumentOf, SpellsNode, Operands;
    OwnNode(e);
    OwnOperands(e);
  }

  lemma OwnNode(e: Expr)
    requires e.Call? ==> !e.hasOptions
    ensures SpellsNode(DocumentOf(e), e)
  {
    hide NodeText, ComparisonText, ArithmeticText, FunctionDoc, SetDoc, IdentityDoc;
  }

  lemma OwnOperands(e: Expr)
    ensures Operands(DocumentOf(e), e) == seq(|Kids(e)|, i requires 0 <= i < |Kids(e)| => DocumentOf(Kids(e)[i]))
  {
    hide NodeText, ComparisonText, ArithmeticText, FunctionDoc, SetDoc, IdentityDoc;
  }

  // ---- Reading one node ------------------------------------------------------------------------

  /** The parser makes this node of the document, over operands that have been read already. */
  ghost predicate Reads(scan: Scan, row: OneRow, raw: Json, root: bool, e: Expr) {
    && raw.JObject? && KindOf(raw.members) == Some(KindFor(e)) && Shape(raw, KindFor(e), root) == Some(Operands(raw, e))
    && |Operands(raw, e)| == |Kids(e)| && Assemble(scan, row, raw, KindFor(e), root, Kids(e)) == Some(e)
  }

  ghost predicate Means(scan: Scan, row: OneRow, raw: Json, root: bool, e: Expr) {
    && SpellsNode(raw, e) && |Operands(raw, e)| == |Kids(e)| && Refers(scan, row, e) && WellTyped(e, root)
  }

  lemma IdentityExactly(j: Json, id: Identity)
    ensures IdentityOf(j) == Some(id)
            <==> j == IdentityDoc(id) && id.namespace != "" && id.name != "" && 0 < id.version <= UINT64_MAX
  {
  }

  lemma SetExactly(scan: Scan, row: OneRow, j: Json, s: FilterSet)
    ensures AssembleSet(scan, row, j) == Some(s) <==> j == SetDoc(s) && RefersToSet(scan, row, s)
  {
    hide Payload, InRow, KnownExtensions;
    if s.LiteralSet? {
      PayloadIs(row, "value", s.valueRef, s.field, ListOf(s.values));
    }
  }

  lemma ColumnExactly(scan: Scan, row: OneRow, raw: Json, root: bool, e: Expr)
    requires e.ColumnRef? && forall i :: 0 <= i < |Kids(e)| ==> WellTyped(Kids(e)[i], false)
    ensures Reads(scan, row, raw, root, e) <==> Means(scan, row, raw, root, e)
  {
    hide KindOf, NodeText;
    NodeTextIs(MembersOf(raw), KindFor(e));
  }

  lemma FieldExactly(scan: Scan, row: OneRow, raw: Json, root: bool, e: Expr)
    requires e.FieldRef? && forall i :: 0 <= i < |Kids(e)| ==> WellTyped(Kids(e)[i], false)
    ensures Reads(scan, row, raw, root, e) <==> Means(scan, row, raw, root, e)
  {
    hide KindOf, NodeText;
    NodeTextIs(MembersOf(raw), KindFor(e));
  }

  lemma LiteralExactly(scan: Scan, row: OneRow, raw: Json, root: bool, e: Expr)
    requires e.Literal? && forall i :: 0 <= i < |Kids(e)| ==> WellTyped(Kids(e)[i], false)
    ensures Reads(scan, row, raw, root, e) <==> Means(scan, row, raw, root, e)
  {
    hide KindOf, NodeText;
    NodeTextIs(MembersOf(raw), KindFor(e));
    hide Payload, InRow;
    PayloadIs(row, "value", e.ref, e.field, e.scalar);
  }

  lemma ComparisonExactly(scan: Scan, row: OneRow, raw: Json, root: bool, e: Expr)
    requires e.Comparison? && forall i :: 0 <= i < |Kids(e)| ==> WellTyped(Kids(e)[i], false)
    ensures Reads(scan, row, raw, root, e) <==> Means(scan, row, raw, root, e)
  {
    hide KindOf, NodeText;
    NodeTextIs(MembersOf(raw), KindFor(e));
    hide AssembleColumn, AssembleField, AssembleSet, AssembleCall, AssembleRuntimeFilter, Payload, InRow,
      KnownExtensions;
    hide ComparisonOpOf, ComparisonText;
    var op := Member(raw, "op");
    if op.JString? {
      ComparisonTextIs(op.s, e.comparison);
    }
    ComparisonTextIsSome(e.comparison);
  }

  lemma ArithmeticExactly(scan: Scan, row: OneRow, raw: Json, root: bool, e: Expr)
    requires e.Arithmetic? && forall i :: 0 <= i < |Kids(e)| ==> WellTyped(Kids(e)[i], false)
    ensures Reads(scan, row, raw, root, e) <==> Means(scan, row, raw, root, e)
  {
    hide KindOf, NodeText;
    NodeTextIs(MembersOf(raw), KindFor(e));
    hide AssembleColumn, AssembleField, AssembleSet, AssembleCall, AssembleRuntimeFilter, Payload, InRow,
      KnownExtensions;
    hide ArithmeticOpOf, ArithmeticText;
    var op := Member(raw, "op");
    if op.JString? {
      ArithmeticTextIs(op.s, e.arithmetic);
    }
    ArithmeticTextIsSome(e.arithmetic);
  }

  lemma BooleanExactly(scan: Scan, row: OneRow, raw: Json, root: bool, e: Expr)
    requires e.Boolean? && forall i :: 0 <= i < |Kids(e)| ==> WellTyped(Kids(e)[i], false)
    ensures Reads(scan, row, raw, root, e) <==> Means(scan, row, raw, root, e)
  {
    hide KindOf, NodeText;
    NodeTextIs(MembersOf(raw), KindFor(e));
    hide AssembleColumn, AssembleField, AssembleSet, AssembleCall, AssembleRuntimeFilter, Payload, InRow,
      KnownExtensions;
  }

  lemma NotExactly(scan: Scan, row: OneRow, raw: Json, root: bool, e: Expr)
    requires e.Not? && forall i :: 0 <= i < |Kids(e)| ==> WellTyped(Kids(e)[i], false)
    ensures Reads(scan, row, raw, root, e) <==> Means(scan, row, raw, root, e)
  {
    hide KindOf, NodeText;
    NodeTextIs(MembersOf(raw), KindFor(e));
    hide AssembleColumn, AssembleField, AssembleSet, AssembleCall, AssembleRuntimeFilter, Payload, InRow,
      KnownExtensions;
  }

  lemma IsNullExactly(scan: Scan, row: OneRow, raw: Json, root: bool, e: Expr)
    requires e.IsNull? && forall i :: 0 <= i < |Kids(e)| ==> WellTyped(Kids(e)[i], false)
    ensures Reads(scan, row, raw, root, e) <==> Means(scan, row, raw, root, e)
  {
    hide KindOf, NodeText;
    NodeTextIs(MembersOf(raw), KindFor(e));
    hide AssembleColumn, AssembleField, AssembleSet, AssembleCall, AssembleRuntimeFilter, Payload, InRow,
      KnownExtensions;
  }

  lemma NegateExactly(scan: Scan, row: OneRow, raw: Json, root: bool, e: Expr)
    requires e.Negate? && forall i :: 0 <= i < |Kids(e)| ==> WellTyped(Kids(e)[i], false)
    ensures Reads(scan, row, raw, root, e) <==> Means(scan, row, raw, root, e)
  {
    hide KindOf, NodeText;
    NodeTextIs(MembersOf(raw), KindFor(e));
    hide AssembleColumn, AssembleField, AssembleSet, AssembleCall, AssembleRuntimeFilter, Payload, InRow,
      KnownExtensions;
  }

  lemma CastExactly(scan: Scan, row: OneRow, raw: Json, root: bool, e: Expr)
    requires e.Cast? && forall i :: 0 <= i < |Kids(e)| ==> WellTyped(Kids(e)[i], false)
    ensures Reads(scan, row, raw, root, e) <==> Means(scan, row, raw, root, e)
  {
    hide KindOf, NodeText;
    NodeTextIs(MembersOf(raw), KindFor(e));
    hide Payload, InRow;
    PayloadIs(row, "type", e.ref, e.field, NullScalar);
  }

  lemma InExactly(scan: Scan, row: OneRow, raw: Json, root: bool, e: Expr)
    requires e.In? && forall i :: 0 <= i < |Kids(e)| ==> WellTyped(Kids(e)[i], false)
    ensures Reads(scan, row, raw, root, e) <==> Means(scan, row, raw, root, e)
  {
    hide KindOf, NodeText;
    NodeTextIs(MembersOf(raw), KindFor(e));
    hide AssembleSet, SetDoc, RefersToSet;
    SetExactly(scan, row, Member(raw, "set"), e.set_);
  }

  /** Without options, or with ones that say nothing. */
  predicate NoOptions(f: Function, m: Members) {
    "options" in m ==> m["options"] == JNull || (f.Extended? && m["options"] == JObject(map[]))
  }

  lemma CallAssembled(scan: Scan, m: Members, kids: seq<Expr>, f: Function)
    requires HasNodeKeys(m, CallNode)
    ensures AssembleCall(scan, m, kids) == Some(Call(f, kids, false))
            <==> && m["function"] == FunctionDoc(f) && NoOptions(f, m)
                 && (f.Extended? ==> f.identity == INTERSECTS_EXTENT && f.identity in scan.extensions)
  {
    hide IdentityOf, IdentityDoc, StandardFunctionOf, FunctionText;
    var j := m["function"];
    if f.Extended? {
      IdentityExactly(j, f.identity);
      IsObject(f.identity);
    } else if j.JString? {
      FunctionTextIs(j.s, f.standard);
    }
  }

  lemma IsObject(id: Identity)
    ensures IdentityDoc(id).JObject?
            && (id == INTERSECTS_EXTENT ==> 0 < id.version <= UINT64_MAX && id.namespace != "" && id.name != "")
  {
  }

  lemma CallSpelled(raw: Json, f: Function)
    requires raw.JObject?
    ensures var docs, m := Items(raw, "arguments"), raw.members;
            (raw == CallDoc(f, docs) || raw == CallWithOptions(f, docs, JNull)
             || (f.Extended? && raw == CallWithOptions(f, docs, JObject(map[]))))
            <==> && HasKeys(m, {"node", "function", "arguments"}, {"options"})
                 && m["node"] == JString(NodeText(CallNode))
                 && m["function"] == FunctionDoc(f) && m["arguments"].JArray? && NoOptions(f, m)
  {
    hide NodeText, FunctionDoc;
    var docs, m := Items(raw, "arguments"), raw.members;
    var plain := CallDoc(f, docs).members;
    if HasKeys(m, {"node", "function", "arguments"}, {"options"}) && m["node"] == JString(NodeText(CallNode))
       && m["function"] == FunctionDoc(f) && m["arguments"].JArray? && NoOptions(f, m) {
      if "options" in m {
        assert m == plain["options" := m["options"]];
      } else {
        assert m == plain;
      }
    }
  }

  lemma CallExactly(scan: Scan, row: OneRow, raw: Json, root: bool, e: Expr)
    requires e.Call? && forall i :: 0 <= i < |Kids(e)| ==> WellTyped(Kids(e)[i], false)
    ensures Reads(scan, row, raw, root, e) <==> Means(scan, row, raw, root, e)
  {
    hide KindOf, NodeText, AssembleCall, NoOptions, FunctionDoc, CallDoc, CallWithOptions;
    hide AssembleColumn, AssembleField, AssembleSet, AssembleRuntimeFilter, Payload, InRow, KnownExtensions;
    NodeTextIs(MembersOf(raw), CallNode);
    ObjectsOnly(e.function_, Items(raw, "arguments"));
    if raw.JObject? {
      CallSpelled(raw, e.function_);
      if HasNodeKeys(raw.members, CallNode) {
        CallAssembled(scan, raw.members, e.arguments, e.function_);
        if AssembleCall(scan, raw.members, e.arguments).Some? {
          CallHasNoOptions(scan, raw.members, e.arguments);
        }
      }
    }
  }

  lemma ObjectsOnly(f: Function, docs: seq<Json>)
    ensures CallDoc(f, docs).JObject? && forall j :: CallWithOptions(f, docs, j).JObject?
  {
  }

  lemma CallHasNoOptions(scan: Scan, m: Members, kids: seq<Expr>)
    requires HasNodeKeys(m, CallNode) && AssembleCall(scan, m, kids).Some?
    ensures var e := AssembleCall(scan, m, kids).value; e == Call(e.function_, kids, false)
  {
    hide HasKeys, IdentityOf, StandardFunctionOf;
  }

  lemma RuntimeFilterAssembled(scan: Scan, row: OneRow, m: Members, e: Expr)
    requires HasNodeKeys(m, RuntimeFilterNode) && e.RuntimeFilter?
    ensures AssembleRuntimeFilter(scan, row, m, e.arg) == Some(e)
            <==> && m["algorithm"] == IdentityDoc(e.algorithm) && m["artifact_ref"] == JInt(e.ref)
                 && m["null_handling"] == JString(if e.passNulls then "pass" else "reject")
                 && e.algorithm in RUNTIME_ALGORITHMS && e.algorithm !in scan.runtimeAlgorithms
                 && InRow(row, "artifact", e.ref, e.field, e.scalar)
  {
    hide Payload, InRow, IdentityOf, IdentityDoc;
    IdentityExactly(m["algorithm"], e.algorithm);
    PayloadIs(row, "artifact", e.ref, e.field, e.scalar);
    RuntimeAlgorithmsAreNamed(e.algorithm);
  }

  lemma RuntimeAlgorithmsAreNamed(id: Identity)
    ensures id in RUNTIME_ALGORITHMS ==> 0 < id.version <= UINT64_MAX && id.namespace != "" && id.name != ""
  {
  }

  lemma RuntimeFilterExactly(scan: Scan, row: OneRow, raw: Json, root: bool, e: Expr)
    requires e.RuntimeFilter? && forall i :: 0 <= i < |Kids(e)| ==> WellTyped(Kids(e)[i], false)
    ensures Reads(scan, row, raw, root, e) <==> Means(scan, row, raw, root, e)
  {
    hide KindOf, NodeText, AssembleRuntimeFilter, AssembleColumn, AssembleField, AssembleSet, AssembleCall, InRow;
    hide IdentityDoc, Payload, KnownExtensions;
    NodeTextIs(MembersOf(raw), KindFor(e));
    if raw.JObject? && HasNodeKeys(raw.members, RuntimeFilterNode) {
      RuntimeFilterAssembled(scan, row, raw.members, e);
    }
  }

  lemma NodeExactly(scan: Scan, row: OneRow, raw: Json, root: bool, e: Expr)
    requires forall i :: 0 <= i < |Kids(e)| ==> WellTyped(Kids(e)[i], false)
    ensures Reads(scan, row, raw, root, e) <==> Means(scan, row, raw, root, e)
  {
    hide Reads, Means;
    match e
    case ColumnRef(_, _, _) => ColumnExactly(scan, row, raw, root, e);
    case FieldRef(_, _, _, _) => FieldExactly(scan, row, raw, root, e);
    case Literal(_, _, _) => LiteralExactly(scan, row, raw, root, e);
    case Comparison(_, _, _) => ComparisonExactly(scan, row, raw, root, e);
    case Boolean(_, _) => BooleanExactly(scan, row, raw, root, e);
    case Not(_) => NotExactly(scan, row, raw, root, e);
    case IsNull(_, _) => IsNullExactly(scan, row, raw, root, e);
    case In(_, _, _) => InExactly(scan, row, raw, root, e);
    case Cast(_, _, _) => CastExactly(scan, row, raw, root, e);
    case Arithmetic(_, _, _) => ArithmeticExactly(scan, row, raw, root, e);
    case Negate(_) => NegateExactly(scan, row, raw, root, e);
    case Call(_, _, _) => CallExactly(scan, row, raw, root, e);
    case RuntimeFilter(_, _, _, _, _, _) => RuntimeFilterExactly(scan, row, raw, root, e);
  }

  // ---- Whole expressions -----------------------------------------------------------------------

  /** What the parser made of a document it made of the node's kind. */
  lemma ReadsItsKind(scan: Scan, row: OneRow, raw: Json, kind: NodeKind, root: bool, kids: seq<Expr>)
    requires raw.JObject? && KindOf(raw.members) == Some(kind) && Shape(raw, kind, root).Some?
    requires |Shape(raw, kind, root).value| == |kids| && Assemble(scan, row, raw, kind, root, kids).Some?
    ensures Reads(scan, row, raw, root, Assemble(scan, row, raw, kind, root, kids).value)
  {
    hide KindOf, Shape, Assemble, Operands;
    AssembleKeepsKids(scan, row, raw, kind, root, kids);
    MadeOfKind(scan, row, raw, kind, root, kids);
    ShapeIsOperands(raw, kind, root, Assemble(scan, row, raw, kind, root, kids).value);
  }

  lemma MadeOfKind(scan: Scan, row: OneRow, raw: Json, kind: NodeKind, root: bool, kids: seq<Expr>)
    requires raw.JObject? && Shape(raw, kind, root).Some? && |Shape(raw, kind, root).value| == |kids|
    requires Assemble(scan, row, raw, kind, root, kids).Some?
    ensures KindFor(Assemble(scan, row, raw, kind, root, kids).value) == kind
  {
    hide HasKeys, HasNodeKeys, Shape, Payload, AssembleSet, IdentityOf, Str, UInt, Flag;
    hide ComparisonOpOf, ArithmeticOpOf, StandardFunctionOf, KnownExtensions;
  }

  lemma ShapeIsOperands(raw: Json, kind: NodeKind, root: bool, e: Expr)
    requires raw.JObject? && Shape(raw, kind, root).Some? && KindFor(e) == kind
    ensures Shape(raw, kind, root).value == Operands(raw, e)
  {
  }

  lemma {:induction false} ReadMeans(scan: Scan, row: OneRow, raw: Json, root: bool)
    requires Elaborate(scan, row, raw, root).Some?
    ensures var e := Elaborate(scan, row, raw, root).value;
            Spells(raw, e) && Belongs(scan, row, e) && WellTyped(e, root)
    decreases raw
  {
    hide Shape, KindOf, Assemble, Kids, Operands, SpellsNode, Refers, WellTyped;
    var e := Elaborate(scan, row, raw, root).value;
    ElaborateInversion(scan, row, raw, root);
    var kind := KindOf(raw.members).value;
    var operands := Shape(raw, kind, root).value;
    forall i | 0 <= i < |Kids(e)|
      ensures Spells(operands[i], Kids(e)[i]) && Belongs(scan, row, Kids(e)[i]) && WellTyped(Kids(e)[i], false)
    {
      ReadMeans(scan, row, operands[i], false);
    }
    ElaborateIntroduction(scan, row, raw, kind, root, Kids(e));
    ReadsItsKind(scan, row, raw, kind, root, Kids(e));
    NodeExactly(scan, row, raw, root, e);
  }

  lemma {:induction false} MeansIsRead(scan: Scan, row: OneRow, raw: Json, root: bool, e: Expr)
    requires Spells(raw, e) && Belongs(scan, row, e) && WellTyped(e, root)
    ensures Elaborate(scan, row, raw, root) == Some(e)
    decreases e
  {
    hide Shape, KindOf, Assemble, Kids, Operands, SpellsNode, Refers, WellTyped, Elaborate;
    KidsAreWellTyped(e, root);
    NodeExactly(scan, row, raw, root, e);
    forall i | 0 <= i < |Kids(e)|
      ensures Elaborate(scan, row, Operands(raw, e)[i], false) == Some(Kids(e)[i])
    {
      MeansIsRead(scan, row, Operands(raw, e)[i], false, Kids(e)[i]);
    }
    ElaborateIntroduction(scan, row, raw, KindFor(e), root, Kids(e));
  }

  lemma KidsAreWellTyped(e: Expr, root: bool)
    requires WellTyped(e, root)
    ensures forall i :: 0 <= i < |Kids(e)| ==> WellTyped(Kids(e)[i], false)
  {
  }

  /**
   The parser takes a document for an expression exactly when the document spells it, every node refers to what this
   scan and this row hold, and the expression is well typed; so a document means at most one expression.
   */
  lemma ElaboratedExactly(scan: Scan, row: OneRow, raw: Json, root: bool, e: Expr)
    ensures Elaborate(scan, row, raw, root) == Some(e)
            <==> Spells(raw, e) && Belongs(scan, row, e) && WellTyped(e, root)
  {
    hide Elaborate, Spells, Belongs, WellTyped;
    if Elaborate(scan, row, raw, root) == Some(e) {
      ReadMeans(scan, row, raw, root);
    } else if Spells(raw, e) && Belongs(scan, row, e) && WellTyped(e, root) {
      MeansIsRead(scan, row, raw, root, e);
    }
  }

  /** Every well-typed expression whose references are there is read back from its own document. */
  lemma RoundTrip(scan: Scan, row: OneRow, e: Expr, root: bool)
    requires WellTyped(e, root)
    ensures Elaborate(scan, row, DocumentOf(e), root) == Some(e) <==> Belongs(scan, row, e)
  {
    hide Elaborate, Spells, Belongs, WellTyped, DocumentOf;
    DocumentSpells(e, root);
    ElaboratedExactly(scan, row, DocumentOf(e), root, e);
  }

  /** A document spells no two expressions of one scan and row. */
  lemma OneMeaning(scan: Scan, row: OneRow, raw: Json, root: bool, d: Expr, e: Expr)
    requires Spells(raw, d) && Belongs(scan, row, d) && WellTyped(d, root)
    requires Spells(raw, e) && Belongs(scan, row, e) && WellTyped(e, root)
    ensures d == e
  {
    hide Elaborate, Spells, Belongs, WellTyped;
    ElaboratedExactly(scan, row, raw, root, d);
    ElaboratedExactly(scan, row, raw, root, e);
  }

  // ---- Expressions that depend on the session --------------------------------------------------

  /** `n` is a node of `e`. */
  ghost predicate Inside(n: Expr, e: Expr)
    decreases e
  {
    n == e || exists i :: 0 <= i < |Kids(e)| && Inside(n, Kids(e)[i])
  }

  /** Text, dates and times, whose conversions follow the session's settings. */
  predicate FollowsSession(t: DataType) { t.Utf8? || t.LargeUtf8? || t.Date? || t.Time? || t.Timestamp? }

  /** A division, a remainder, or a cast between such types. */
  predicate AsksSession(n: Expr) {
    || (n.Arithmetic? && n.arithmetic in {Divide, Modulo})
    || (n.Cast? && FollowsSession(n.field.dtype)
        && match n.arg
           case ColumnRef(_, _, t) => t.Some? && FollowsSession(t.value)
           case FieldRef(_, _, _, t) => FollowsSession(t)
           case Literal(_, field, _) => FollowsSession(field.dtype)
           case Cast(_, _, field) => FollowsSession(field.dtype)
           case _ => false)
  }

  lemma {:induction false} SessionExactly(e: Expr)
    ensures RequiresSession(e) <==> exists n :: Inside(n, e) && AsksSession(n)
    decreases e
  {
    hide RequiresSession, AsksSession;
    forall i | 0 <= i < |Kids(e)|
      ensures RequiresSession(Kids(e)[i]) <==> exists n :: Inside(n, Kids(e)[i]) && AsksSession(n)
    {
      SessionExactly(Kids(e)[i]);
    }
    SessionStep(e);
    assert Inside(e, e);
    if n :| Inside(n, e) && AsksSession(n) && n != e {
      var i :| 0 <= i < |Kids(e)| && Inside(n, Kids(e)[i]);
      assert RequiresSession(Kids(e)[i]);
    }
    if i :| 0 <= i < |Kids(e)| && RequiresSession(Kids(e)[i]) {
      var n :| Inside(n, Kids(e)[i]) && AsksSession(n);
      assert Inside(n, e);
    }
  }

  lemma SessionStep(e: Expr)
    ensures RequiresSession(e) <==> AsksSession(e) || exists i :: 0 <= i < |Kids(e)| && RequiresSession(Kids(e)[i])
  {
    var kids := Kids(e);
    if |kids| == 1 {
      assert RequiresSession(kids[0]) <==> exists i :: 0 <= i < |kids| && RequiresSession(kids[i]);
    } else if e.Comparison? || e.Arithmetic? {
      assert RequiresSession(kids[0]) || RequiresSession(kids[1])
             <==> exists i :: 0 <= i < |kids| && RequiresSession(kids[i]);
    }
  }

  // ---- Predicates ------------------------------------------------------------------------------

  predicate GoodId(id: string) { id != "" && Bytes.Utf8Length(id) <= 128 }

  /** The members of a predicate's document; those of an upsert say in addition that it is one. */
  ghost predicate SpellsPredicate(m: Members, p: Predicate, update: bool) {
    && m.Keys == {"id", "revision", "mode", "source", "expression"} + (if update then {"operation"} else {})
    && m["id"] == JString(p.id) && m["revision"] == JInt(p.revision)
    && m["mode"] == JString(ModeText(p.mode)) && m["source"] == JString(SourceText(p.source))
    && Spells(m["expression"], p.expression)
  }

  /** What a scan, a payload row, an evaluation context and a way of reading admit. */
  ghost predicate Admits(scan: Scan, row: OneRow, context: Context, reading: Reading, p: Predicate) {
    var e := p.expression;
    && GoodId(p.id) && p.revision <= UINT64_MAX
    && Belongs(scan, row, e) && WellTyped(e, true) && Height(e) <= 64
    && (RequiresSession(e) ==> context.Session?)
    && (if e.RuntimeFilter? then p.mode.Advisory?
        else IsBoolean(e) && (scan.outputSchema.Some? && !reading.replaying ==> reading.binds(e)))
  }

  /** A predicate's document is taken for exactly the predicate it spells, if that is admitted. */
  lemma PredicateExactly(scan: Scan, row: OneRow, context: Context, reading: Reading, m: Members, update: bool,
                         p: Predicate)
    ensures ElaboratePredicate(scan, row, context, reading, m, update) == Some(p)
            <==> SpellsPredicate(m, p, update) && Admits(scan, row, context, reading, p)
  {
    hide Elaborate, Spells, Belongs, WellTyped, RequiresSession, Height, IsBoolean, Bytes.Utf8Length;
    hide ModeOf, ModeText, SourceOf, SourceText;
    if "expression" in m {
      ElaboratedExactly(scan, row, m["expression"], true, p.expression);
    }
    if "mode" in m && m["mode"].JString? {
      ModeTextIs(m["mode"].s, p.mode);
    }
    if "source" in m && m["source"].JString? {
      SourceTextIs(m["source"].s, p.source);
    }
    NamesAreSome(p.mode, p.source);
  }

  lemma NamesAreSome(mode: Mode, source: Source)
    ensures ModeText(mode) != "" && SourceText(source) != ""
  {
  }
}
