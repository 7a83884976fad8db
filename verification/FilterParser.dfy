/**
 The strict parser of filter documents. `Elaborate` says what a raw expression means, without
 any counter; `Parser` is the parser itself, which counts nodes and tracks depth as it goes.
 */
module FilterParser {
  import opened Common
  import opened Arrow
  import opened FilterModel
  import Bytes
  import Decimal

  type Members = map<string, Json>

  /** `_keys`: every required member, and no other than the optional ones. */
  predicate HasKeys(m: Members, required: set<string>, optional: set<string>) {
    required <= m.Keys && m.Keys <= required + optional
  }

  function UInt(j: Json): Option<nat> {
    if j.JInt? && 0 <= j.n <= UINT64_MAX then Some(j.n) else None
  }

  function Str(j: Json): Option<string> {
    if j.JString? && j.s != "" then Some(j.s) else None
  }

  function Flag(j: Json): Option<bool> {
    if j.JBool? then Some(j.b) else None
  }

  function ComparisonOpOf(s: string): Option<ComparisonOp> {
    if s == "eq" then Some(Eq) else if s == "ne" then Some(Ne)
    else if s == "lt" then Some(Lt) else if s == "le" then Some(Le)
    else if s == "gt" then Some(Gt) else if s == "ge" then Some(Ge)
    else if s == "distinct_from" then Some(DistinctFrom)
    else if s == "not_distinct_from" then Some(NotDistinctFrom) else None
  }

  function ArithmeticOpOf(s: string): Option<ArithmeticOp> {
    if s == "add" then Some(Add) else if s == "subtract" then Some(Subtract)
    else if s == "multiply" then Some(Multiply) else if s == "divide" then Some(Divide)
    else if s == "modulo" then Some(Modulo) else None
  }

  function StandardFunctionOf(s: string): Option<StandardFunction> {
    if s == "starts_with" then Some(StartsWith) else if s == "ends_with" then Some(EndsWith)
    else if s == "contains" then Some(Contains) else if s == "list_contains" then Some(ListContains) else None
  }

  function ModeOf(s: string): Option<Mode> {
    if s == "required" then Some(Required) else if s == "advisory" then Some(Advisory) else None
  }

  function SourceOf(s: string): Option<Source> {
    if s == "query" then Some(Query) else if s == "join" then Some(Join) else if s == "top_n" then Some(TopN)
    else if s == "split_refinement" then Some(SplitRefinement) else if s == "other" then Some(OtherSource) else None
  }

  const KNOWN_EXTENSIONS := {"arrow.bool8", "arrow.json", "arrow.uuid", "geoarrow.linestring",
                             "geoarrow.multilinestring", "geoarrow.multipoint", "geoarrow.multipolygon",
                             "geoarrow.point", "geoarrow.polygon", "geoarrow.wkb"}

  predicate KnownExtensions(f: Field) {
    && ("ARROW:extension:name" in f.metadata ==> f.metadata["ARROW:extension:name"] in KNOWN_EXTENSIONS)
    && match f.dtype
       case Extension(name, _) => name in KNOWN_EXTENSIONS
       case Struct(fields) => forall i | 0 <= i < |fields| :: KnownExtensions(fields[i])
       case List(item) => KnownExtensions(item)
       case LargeList(item) => KnownExtensions(item)
       case _ => true
  }

  function PayloadName(prefix: string, ref: nat): string { prefix + "_" + Decimal.Render(ref) }

  /** `_payload`: the column of the batch that a reference names. */
  function Payload(row: OneRow, prefix: string, ref: nat): Option<(Field, Scalar)> {
    var i :- Find(row.schema.fields, PayloadName(prefix, ref));
    var field := row.schema.fields[i];
    if prefix != "artifact" && !KnownExtensions(field) then None else Some((field, row.row[i]))
  }

  function IdentityOf(j: Json): Option<Identity> {
    if !j.JObject? || !HasKeys(j.members, {"namespace", "name", "version"}, {}) then None
    else
      var namespace :- Str(j.members["namespace"]);
      var name :- Str(j.members["name"]);
      var version :- UInt(j.members["version"]);
      if version == 0 then None else Some(Identity(namespace, name, version))
  }

  /** The kind of node an expression object declares. */
  function KindOf(m: Members): Option<NodeKind> {
    if "node" !in m || !m["node"].JString? then None
    else
      var s := m["node"].s;
      if s == "column_ref" then Some(ColumnNode) else if s == "field_ref" then Some(FieldNode)
      else if s == "literal" then Some(LiteralNode) else if s == "comparison" then Some(ComparisonNode)
      else if s == "and" then Some(AndNode) else if s == "or" then Some(OrNode) else if s == "not" then Some(NotNode)
      else if s == "is_null" then Some(IsNullNode) else if s == "in" then Some(InNode)
      else if s == "cast" then Some(CastNode) else if s == "arithmetic" then Some(ArithmeticNode)
      else if s == "negate" then Some(NegateNode) else if s == "call" then Some(CallNode)
      else if s == "runtime_filter" then Some(RuntimeFilterNode) else None
  }

  /** The exact property names of each kind of node; a call may also have `options`. */
  predicate HasNodeKeys(m: Members, kind: NodeKind) {
    match kind
    case ColumnNode => HasKeys(m, {"node", "column_index", "column_name"}, {})
    case FieldNode => HasKeys(m, {"node", "expression", "field_index", "field_name"}, {})
    case LiteralNode => HasKeys(m, {"node", "value_ref"}, {})
    case ComparisonNode => HasKeys(m, {"node", "op", "left", "right"}, {})
    case ArithmeticNode => HasKeys(m, {"node", "op", "left", "right"}, {})
    case AndNode => HasKeys(m, {"node", "children"}, {})
    case OrNode => HasKeys(m, {"node", "children"}, {})
    case NotNode => HasKeys(m, {"node", "expression"}, {})
    case NegateNode => HasKeys(m, {"node", "expression"}, {})
    case IsNullNode => HasKeys(m, {"node", "expression", "negated"}, {})
    case InNode => HasKeys(m, {"node", "expression", "set", "negated"}, {})
    case CastNode => HasKeys(m, {"node", "expression", "type_ref"}, {})
    case CallNode => HasKeys(m, {"node", "function", "arguments"}, {"options"})
    case RuntimeFilterNode => HasKeys(m, {"node", "algorithm", "input", "artifact_ref", "null_handling"}, {})
  }

  /** The raw operands of an expression object, once its property names have been checked. */
  function Shape(raw: Json, kind: NodeKind, root: bool): (r: Option<seq<Json>>)
    requires raw.JObject?
    ensures r.Some? ==> HasNodeKeys(raw.members, kind)
    ensures r.Some? ==> forall i :: 0 <= i < |r.value| ==> r.value[i] < raw
    ensures r.Some? && (kind.ComparisonNode? || kind.ArithmeticNode?) ==> |r.value| == 2
    ensures r.Some? && (kind.ColumnNode? || kind.LiteralNode?) ==> |r.value| == 0
    ensures r.Some? && kind.CallNode? ==> |r.value| <= MAX_ARGUMENTS
    ensures r.Some? && (kind.AndNode? || kind.OrNode?) ==> |r.value| >= 2
    ensures r.Some? && (kind.FieldNode? || kind.NotNode? || kind.NegateNode? || kind.InNode?) ==> |r.value| == 1
    ensures r.Some? && (kind.IsNullNode? || kind.CastNode? || kind.RuntimeFilterNode?) ==> |r.value| == 1
    ensures r.Some? && kind.RuntimeFilterNode? ==> root
  {
    var m := raw.members;
    if !HasNodeKeys(m, kind) then None
    else
      match kind
      case ColumnNode => Some([])
      case LiteralNode => Some([])
      case ComparisonNode => Some([m["left"], m["right"]])
      case ArithmeticNode => Some([m["left"], m["right"]])
      case AndNode => if m["children"].JArray? && |m["children"].items| >= 2 then Some(m["children"].items) else None
      case OrNode => if m["children"].JArray? && |m["children"].items| >= 2 then Some(m["children"].items) else None
      case CallNode =>
        if m["arguments"].JArray? && |m["arguments"].items| <= MAX_ARGUMENTS then Some(m["arguments"].items) else None
      case RuntimeFilterNode => if root then Some([m["input"]]) else None
      case _ => Some([m["expression"]])
  }

  function AssembleColumn(scan: Scan, m: Members): Option<Expr>
    requires HasNodeKeys(m, ColumnNode)
  {
    var index :- UInt(m["column_index"]);
    var name :- Str(m["column_name"]);
    if scan.outputSchema.None? then Some(ColumnRef(index, name, None))
    else if index >= |scan.outputSchema.value| then None
    else
      var field := scan.outputSchema.value[index];
      if !KnownExtensions(field) || field.name != name then None
      else Some(ColumnRef(index, name, Some(field.dtype)))
  }

  function AssembleField(m: Members, a: Expr): Option<Expr>
    requires HasNodeKeys(m, FieldNode)
  {
    var parent :- TypeOf(a);
    if !parent.Struct? then None
    else
      var index :- UInt(m["field_index"]);
      var name :- Str(m["field_name"]);
      if index >= |parent.fields| || parent.fields[index].name != name then None
      else Some(FieldRef(a, index, name, parent.fields[index].dtype))
  }

  function AssembleSet(scan: Scan, row: OneRow, j: Json): Option<FilterSet> {
    if !j.JObject? then None
    else if HasKeys(j.members, {"kind", "value_ref"}, {}) && j.members["kind"] == JString("literal") then
      var ref :- UInt(j.members["value_ref"]);
      var (field, scalar) :- Payload(row, "value", ref);
      if !(field.dtype.List? || field.dtype.LargeList?) || !scalar.ListOf? then None
      else Some(LiteralSet(ref, field, scalar.items))
    else if HasKeys(j.members, {"kind", "batch_index", "column_index", "column_name"}, {})
            && j.members["kind"] == JString("external") then
      var batchIndex :- UInt(j.members["batch_index"]);
      var columnIndex :- UInt(j.members["column_index"]);
      var name :- Str(j.members["column_name"]);
      if batchIndex >= |scan.joinKeys| then None
      else
        var keys := scan.joinKeys[batchIndex];
        if columnIndex >= |keys.fields| || keys.fields[columnIndex].name != name
           || !KnownExtensions(keys.fields[columnIndex]) then None
        else Some(ExternalSet(batchIndex, columnIndex, name, keys))
    else None
  }

  function AssembleCall(scan: Scan, m: Members, kids: seq<Expr>): Option<Expr>
    requires HasNodeKeys(m, CallNode)
  {
    var options := if "options" in m then m["options"] else JNull;
    if m["function"].JString? then
      var f :- StandardFunctionOf(m["function"].s);
      if options != JNull then None else Some(Call(Standard(f), kids, false))
    else
      var identity :- IdentityOf(m["function"]);
      if identity != INTERSECTS_EXTENT || identity !in scan.extensions then None
      else if options != JNull && options != JObject(map[]) then None
      else Some(Call(Extended(identity), kids, false))
  }

  function AssembleRuntimeFilter(scan: Scan, row: OneRow, m: Members, a: Expr): Option<Expr>
    requires HasNodeKeys(m, RuntimeFilterNode)
  {
    var algorithm :- IdentityOf(m["algorithm"]);
    var ref :- UInt(m["artifact_ref"]);
    var (field, artifact) :- Payload(row, "artifact", ref);
    if algorithm !in RUNTIME_ALGORITHMS || algorithm in scan.runtimeAlgorithms then None
    else if m["null_handling"] == JString("pass") then Some(RuntimeFilter(algorithm, a, ref, field, artifact, true))
    else if m["null_handling"] == JString("reject") then Some(RuntimeFilter(algorithm, a, ref, field, artifact, false))
    else None
  }

  /** The expression node over operands that have been parsed already. */
  function Assemble(scan: Scan, row: OneRow, raw: Json, kind: NodeKind, root: bool, kids: seq<Expr>): Option<Expr>
    requires raw.JObject? && Shape(raw, kind, root).Some? && |Shape(raw, kind, root).value| == |kids|
  {
    var m := raw.members;
    match kind
    case ColumnNode => AssembleColumn(scan, m)
    case FieldNode => AssembleField(m, kids[0])
    case LiteralNode =>
      var ref :- UInt(m["value_ref"]);
      var (field, scalar) :- Payload(row, "value", ref);
      Some(Literal(ref, field, scalar))
    case ComparisonNode =>
      var name :- Str(m["op"]);
      var op :- ComparisonOpOf(name);
      Some(Comparison(op, kids[0], kids[1]))
    case AndNode => if forall i | 0 <= i < |kids| :: IsBoolean(kids[i]) then Some(Boolean(true, kids)) else None
    case OrNode => if forall i | 0 <= i < |kids| :: IsBoolean(kids[i]) then Some(Boolean(false, kids)) else None
    case NotNode => if IsBoolean(kids[0]) then Some(Not(kids[0])) else None
    case IsNullNode =>
      var negated :- Flag(m["negated"]);
      Some(IsNull(kids[0], negated))
    case InNode =>
      var members :- AssembleSet(scan, row, m["set"]);
      var negated :- Flag(m["negated"]);
      Some(In(kids[0], members, negated))
    case CastNode =>
      var ref :- UInt(m["type_ref"]);
      var (field, scalar) :- Payload(row, "type", ref);
      if scalar != NullScalar then None else Some(Cast(kids[0], ref, field))
    case ArithmeticNode =>
      var name :- Str(m["op"]);
      var op :- ArithmeticOpOf(name);
      Some(Arithmetic(op, kids[0], kids[1]))
    case NegateNode => Some(Negate(kids[0]))
    case CallNode => AssembleCall(scan, m, kids)
    case RuntimeFilterNode => AssembleRuntimeFilter(scan, row, m, kids[0])
  }

  /** What a raw expression means, if it means anything: no limit on size or depth is applied. */
  function Elaborate(scan: Scan, row: OneRow, raw: Json, root: bool): Option<Expr>
    decreases raw, 1, 0
  {
    if !raw.JObject? then None
    else
      var kind :- KindOf(raw.members);
      var operands :- Shape(raw, kind, root);
      var kids :- ElaborateAll(scan, row, raw, operands);
      Assemble(scan, row, raw, kind, root, kids)
  }

  function ElaborateAll(scan: Scan, row: OneRow, ghost parent: Json, operands: seq<Json>): (r: Option<seq<Expr>>)
    requires forall i :: 0 <= i < |operands| ==> operands[i] < parent
    ensures r.Some? ==> |r.value| == |operands|
    decreases parent, 0, |operands|
  {
    if operands == [] then Some([])
    else
      var k := |operands| - 1;
      var init :- ElaborateAll(scan, row, parent, operands[..k]);
      var last :- Elaborate(scan, row, operands[k], false);
      Some(init + [last])
  }

  lemma {:induction false} ElaborateAllElements(scan: Scan, row: OneRow, parent: Json, operands: seq<Json>)
    requires forall i :: 0 <= i < |operands| ==> operands[i] < parent
    ensures var r := ElaborateAll(scan, row, parent, operands);
            && (r.Some? <==> forall i :: 0 <= i < |operands| ==> Elaborate(scan, row, operands[i], false).Some?)
            && (r.Some? ==> forall i :: 0 <= i < |operands| ==>
                              Elaborate(scan, row, operands[i], false) == Some(r.value[i]))
    decreases |operands|
  {
    hide Shape, KindOf, Assemble, Elaborate;
    if operands != [] {
      var k := |operands| - 1;
      ElaborateAllElements(scan, row, parent, operands[..k]);
      assert forall i :: 0 <= i < k ==> operands[..k][i] == operands[i];
    }
  }

  lemma AssembleKeepsKids(scan: Scan, row: OneRow, raw: Json, kind: NodeKind, root: bool, kids: seq<Expr>)
    requires raw.JObject? && Shape(raw, kind, root).Some? && |Shape(raw, kind, root).value| == |kids|
    requires Assemble(scan, row, raw, kind, root, kids).Some?
    ensures Kids(Assemble(scan, row, raw, kind, root, kids).value) == kids
  {
    hide HasKeys, HasNodeKeys, Shape, Payload, AssembleSet, IdentityOf, Str, UInt, Flag;
    hide ComparisonOpOf, ArithmeticOpOf, StandardFunctionOf, KnownExtensions;
    assert |kids| == 1 ==> kids == [kids[0]];
    assert |kids| == 2 ==> kids == [kids[0], kids[1]];
    match kind
    case CallNode => assert Assemble(scan, row, raw, kind, root, kids) == AssembleCall(scan, raw.members, kids);
    case RuntimeFilterNode =>
    case _ =>
  }

  lemma AssembledIsWellTyped(scan: Scan, row: OneRow, raw: Json, kind: NodeKind, root: bool, kids: seq<Expr>)
    requires raw.JObject? && Shape(raw, kind, root).Some? && |Shape(raw, kind, root).value| == |kids|
    requires Assemble(scan, row, raw, kind, root, kids).Some?
    requires forall i :: 0 <= i < |kids| ==> WellTyped(kids[i], false)
    ensures WellTyped(Assemble(scan, row, raw, kind, root, kids).value, root)
  {
    hide HasKeys, HasNodeKeys, Shape, Payload, AssembleSet, IdentityOf, Str, UInt, Flag;
    hide ComparisonOpOf, ArithmeticOpOf, StandardFunctionOf, KnownExtensions;
  }

  /** The operands of a meaningful expression are meaningful, and are the operands of what it means. */
  lemma ElaborateInversion(scan: Scan, row: OneRow, raw: Json, root: bool)
    requires Elaborate(scan, row, raw, root).Some?
    ensures raw.JObject? && KindOf(raw.members).Some? && Shape(raw, KindOf(raw.members).value, root).Some?
    ensures var e := Elaborate(scan, row, raw, root).value;
            var operands := Shape(raw, KindOf(raw.members).value, root).value;
            && Size(e) == 1 + SizeAll(Kids(e)) && Height(e) == 1 + HeightAll(Kids(e))
            && |Kids(e)| == |operands|
            && forall i :: 0 <= i < |operands| ==> Elaborate(scan, row, operands[i], false) == Some(Kids(e)[i])
  {
    hide Shape, KindOf, Assemble, Kids, Size, Height;
    var e := Elaborate(scan, row, raw, root).value;
    var kind := KindOf(raw.members).value;
    var operands := Shape(raw, kind, root).value;
    ElaborateAllElements(scan, row, raw, operands);
    AssembleKeepsKids(scan, row, raw, kind, root, ElaborateAll(scan, row, raw, operands).value);
    MeasuresOfKids(e);
  }

  /** Meaningful operands leave only the node itself to be judged. */
  lemma ElaborateIntroduction(scan: Scan, row: OneRow, raw: Json, kind: NodeKind, root: bool, kids: seq<Expr>)
    requires raw.JObject? && KindOf(raw.members) == Some(kind) && Shape(raw, kind, root).Some?
    requires |kids| == |Shape(raw, kind, root).value|
    requires forall i :: 0 <= i < |kids| ==>
                           Elaborate(scan, row, Shape(raw, kind, root).value[i], false) == Some(kids[i])
    ensures Elaborate(scan, row, raw, root) == Assemble(scan, row, raw, kind, root, kids)
  {
    hide Shape, KindOf, Assemble;
    var operands := Shape(raw, kind, root).value;
    ElaborateAllElements(scan, row, raw, operands);
    assert ElaborateAll(scan, row, raw, operands).value == kids;
  }

  /** An accepted expression is well typed, and a runtime filter occurs only as the root of a predicate. */
  lemma {:induction false} ElaboratedIsWellTyped(scan: Scan, row: OneRow, raw: Json, root: bool)
    requires Elaborate(scan, row, raw, root).Some?
    ensures WellTyped(Elaborate(scan, row, raw, root).value, root)
    decreases raw
  {
    var kind := KindOf(raw.members).value;
    var operands := Shape(raw, kind, root).value;
    var kids := ElaborateAll(scan, row, raw, operands).value;
    ElaborateAllElements(scan, row, raw, operands);
    forall i | 0 <= i < |operands|
      ensures WellTyped(kids[i], false)
    {
      ElaboratedIsWellTyped(scan, row, operands[i], false);
    }
    AssembledIsWellTyped(scan, row, raw, kind, root, kids);
  }

  predicate ValidId(j: Json) { Str(j).Some? && Bytes.Utf8Length(Str(j).value) <= MAX_ID_BYTES }

  /**
   How a document is being read: whether the worker is re-reading documents it accepted before,
   and whether DuckDB binds an expression against the empty output batch.
   */
  datatype Reading = Reading(replaying: bool, binds: Expr -> bool) {
    predicate Bindable(e: Expr) { replaying || binds(e) }
  }

  /**
   What `_predicate` makes of an entry of a snapshot, or of an upsert of a delta: all its checks but
   the node count, which depends on the rest of the document.
   */
  function ElaboratePredicate(scan: Scan, row: OneRow, context: Context, reading: Reading, m: Members, update: bool)
    : Option<Predicate>
  {
    if !HasKeys(m, {"id", "revision", "mode", "source", "expression"} + if update then {"operation"} else {}, {})
    then None
    else
      var modeName :- Str(m["mode"]);
      var mode :- ModeOf(modeName);
      var sourceName :- Str(m["source"]);
      var source :- SourceOf(sourceName);
      var e :- Elaborate(scan, row, m["expression"], true);
      if Height(e) > MAX_DEPTH then None
      else if context.NoContext? && RequiresSession(e) then None
      else if e.RuntimeFilter? && mode.Required? then None
      else if !e.RuntimeFilter? && !IsBoolean(e) then None
      else if scan.outputSchema.Some? && !e.RuntimeFilter? && !reading.Bindable(e) then None
      else if !ValidId(m["id"]) then None
      else
        var revision :- UInt(m["revision"]);
        Some(Predicate(m["id"].s, revision, mode, source, e))
  }

  /** What the parser guarantees of a predicate it returns. */
  ghost predicate Sound(p: Predicate) {
    && WellTyped(p.expression, true)
    && Height(p.expression) <= MAX_DEPTH && Size(p.expression) <= MAX_NODES
    && (p.expression.RuntimeFilter? ==> p.mode.Advisory?)
    && (!p.expression.RuntimeFilter? ==> IsBoolean(p.expression))
  }

  lemma ElaboratedPredicateIsSound(scan: Scan, row: OneRow, context: Context, reading: Reading, m: Members,
                                   update: bool)
    requires ElaboratePredicate(scan, row, context, reading, m, update).Some?
    ensures var p := ElaboratePredicate(scan, row, context, reading, m, update).value;
            Size(p.expression) <= MAX_NODES ==> Sound(p)
  {
    hide Elaborate, HasKeys, ModeOf, SourceOf, RequiresSession, WellTyped;
    if HasKeys(m, {"id", "revision", "mode", "source", "expression"} + if update then {"operation"} else {}, {}) {
      assert "expression" in m by {
        ExpressionIsPresent(m, update);
      }
      ElaboratedIsWellTyped(scan, row, m["expression"], true);
    }
  }

  lemma ExpressionIsPresent(m: Members, update: bool)
    requires HasKeys(m, {"id", "revision", "mode", "source", "expression"} + if update then {"operation"} else {}, {})
    ensures "expression" in m
  {
  }

  class Parser {
    const scan: Scan
    const row: OneRow
    const context: Context
    const reading: Reading
    var nodes: nat

    constructor (scan: Scan, row: OneRow, context: Context, reading: Reading)
      ensures this.scan == scan && this.row == row && this.context == context && this.reading == reading
      ensures nodes == 0
    {
      this.scan, this.row, this.context, this.reading := scan, row, context, reading;
      nodes := 0;
    }

    /**
     `_expression`: accepts exactly the meaningful expressions within both limits, and counts each node once.
     */
    method Expression(raw: Json, depth: nat, root: bool) returns (r: Option<Expr>)
      requires depth >= 1
      modifies this`nodes
      ensures r.Some? <==> && Elaborate(scan, row, raw, root).Some?
                           && depth + Height(Elaborate(scan, row, raw, root).value) <= 65
                           && old(nodes) + Size(Elaborate(scan, row, raw, root).value) <= 10_000
      ensures r.Some? ==> r == Elaborate(scan, row, raw, root) && nodes == old(nodes) + Size(r.value)
      decreases raw
    {
      hide Shape, KindOf, Assemble, Elaborate, ElaborateAll, Kids, Size, Height, SizeAll, HeightAll;
      MeasuresOfNone();
      ghost var whole := Elaborate(scan, row, raw, root);
      if whole.Some? {
        ElaborateInversion(scan, row, raw, root);
      }
      if !raw.JObject? || depth > MAX_DEPTH {
        return None;
      }
      nodes := nodes + 1;
      if nodes > MAX_NODES {
        return None;
      }
      var kind := KindOf(raw.members);
      if kind.None? {
        return None;
      }
      var operands := Shape(raw, kind.value, root);
      if operands.None? {
        return None;
      }
      var kids: seq<Expr> := [];
      for i := 0 to |operands.value|
        invariant |kids| == i
        invariant forall j :: 0 <= j < i ==> Elaborate(scan, row, operands.value[j], false) == Some(kids[j])
        invariant nodes == old(nodes) + 1 + SizeAll(kids) && nodes <= MAX_NODES
        invariant depth + HeightAll(kids) <= MAX_DEPTH
      {
        if whole.Some? {
          MeasuresOfElements(Kids(whole.value), i);
          assert Kids(whole.value)[..i] == kids;
        }
        var kid := Expression(operands.value[i], depth + 1, false);
        if kid.None? {
          return None;
        }
        MeasuresOfAppend(kids, kid.value);
        kids := kids + [kid.value];
      }
      ElaborateIntroduction(scan, row, raw, kind.value, root, kids);
      r := Assemble(scan, row, raw, kind.value, root, kids);
      if r.Some? {
        assert Kids(r.value) == kids;
      }
    }

    /** `_predicate`: accepts exactly what elaborates within the limits that the document has left. */
    method PredicateEntry(m: Members, update: bool) returns (r: Option<Predicate>)
      modifies this`nodes
      ensures var spec := ElaboratePredicate(scan, row, context, reading, m, update);
              && (r.Some? <==> spec.Some? && old(nodes) + Size(spec.value.expression) <= MAX_NODES)
              && (r.Some? ==> r == spec && nodes == old(nodes) + Size(r.value.expression) && Sound(r.value))
    {
      hide TypeOf, RequiresSession, Elaborate, Height, Size, WellTyped, ModeOf, SourceOf;
      if !HasKeys(m, {"id", "revision", "mode", "source", "expression"} + (if update then {"operation"} else {}), {}) {
        return None;
      }
      var modeName, sourceName := Str(m["mode"]), Str(m["source"]);
      if modeName.None? || sourceName.None? {
        return None;
      }
      var mode, source := ModeOf(modeName.value), SourceOf(sourceName.value);
      if mode.None? || source.None? {
        return None;
      }
      var expression := Expression(m["expression"], 1, true);
      if expression.None? {
        return None;
      }
      var e := expression.value;
      ElaboratedIsWellTyped(scan, row, m["expression"], true);
      if context.NoContext? && RequiresSession(e) {
        return None;
      }
      if e.RuntimeFilter? {
        if !mode.value.Advisory? {
          return None;
        }
      } else if !IsBoolean(e) {
        return None;
      }
      if scan.outputSchema.Some? && !e.RuntimeFilter? && !reading.replaying {
        if !reading.binds(e) {
          return None;
        }
      }
      var revision := UInt(m["revision"]);
      if !ValidId(m["id"]) || revision.None? {
        return None;
      }
      return Some(Predicate(m["id"].s, revision.value, mode.value, source.value, e));
    }
  }
}
