/**
 Evaluating an expression: DuckDB is given an input relation with the referenced columns, a one-row
 payload relation and the key batches, all gathered by traversals of the expression, and a rendered
 text that mentions names in them. The rendered text is modelled by what it mentions.
 */
module FilterEvaluation {
  import opened Common
  import opened Arrow
  import opened FilterModel
  import opened FilterParser
  import Decimal

  // ---- Gathering without repeats ---------------------------------------------------------------

  /** Append the items whose key has not been seen yet. */
  function AddFresh<T, K(==)>(key: T -> K, acc: seq<T>, items: seq<T>): seq<T> {
    if items == [] then acc
    else
      var before := AddFresh(key, acc, items[..|items| - 1]);
      var item := items[|items| - 1];
      if exists i | 0 <= i < |before| :: key(before[i]) == key(item) then before else before + [item]
  }

  lemma {:induction false} AddFreshTwice<T, K>(key: T -> K, acc: seq<T>, a: seq<T>, b: seq<T>)
    ensures AddFresh(key, acc, a + b) == AddFresh(key, AddFresh(key, acc, a), b)
  {
    if b == [] {
      assert a + b == a;
    } else {
      AddFreshTwice(key, acc, a, b[..|b| - 1]);
      assert (a + b)[..|a + b| - 1] == a + b[..|b| - 1];
    }
  }

  ghost predicate DistinctKeys<T, K>(key: T -> K, items: seq<T>) {
    forall i, j :: 0 <= i < j < |items| ==> key(items[i]) != key(items[j])
  }

  /** Each key is kept once, with an item that was there. */
  lemma {:induction false} FreshIsDistinct<T, K>(key: T -> K, items: seq<T>)
    ensures DistinctKeys(key, AddFresh(key, [], items))
    ensures forall i :: 0 <= i < |AddFresh(key, [], items)| ==> AddFresh(key, [], items)[i] in items
  {
    if items != [] {
      FreshIsDistinct(key, items[..|items| - 1]);
    }
  }

  /** No key is lost. */
  lemma {:induction false} FreshCovers<T, K>(key: T -> K, items: seq<T>, n: nat) returns (k: nat)
    requires n < |items|
    ensures k < |AddFresh(key, [], items)| && key(AddFresh(key, [], items)[k]) == key(items[n])
  {
    var last := |items| - 1;
    var before := AddFresh(key, [], items[..last]);
    if n < last {
      k := FreshCovers(key, items[..last], n);
    } else if i :| 0 <= i < |before| && key(before[i]) == key(items[last]) {
      k := i;
    } else {
      k := |before|;
    }
  }

  // ---- Traversals ------------------------------------------------------------------------------

  /** The nodes a traversal visits, operands before the node itself; `enter` says where it goes on. */
  function Visited(enter: Expr -> bool, e: Expr): seq<Expr>
    decreases e, 1, 0
  {
    (if enter(e) then VisitedAll(enter, e, Kids(e)) else []) + [e]
  }

  function VisitedAll(enter: Expr -> bool, ghost parent: Expr, es: seq<Expr>): seq<Expr>
    requires forall i :: 0 <= i < |es| ==> es[i] < parent
    decreases parent, 0, |es|
  {
    if es == [] then [] else VisitedAll(enter, parent, es[..|es| - 1]) + Visited(enter, es[|es| - 1])
  }

  /** What the visited nodes contribute, in order. */
  function Collect<T>(own: Expr -> seq<T>, nodes: seq<Expr>): seq<T> {
    if nodes == [] then [] else Collect(own, nodes[..|nodes| - 1]) + own(nodes[|nodes| - 1])
  }

  lemma {:induction false} CollectOfConcat<T>(own: Expr -> seq<T>, a: seq<Expr>, b: seq<Expr>)
    ensures Collect(own, a + b) == Collect(own, a) + Collect(own, b)
  {
    if b == [] {
      assert a + b == a;
    } else {
      CollectOfConcat(own, a, b[..|b| - 1]);
      assert (a + b)[..|a + b| - 1] == a + b[..|b| - 1];
    }
  }

  lemma CollectOfOne<T>(own: Expr -> seq<T>, e: Expr)
    ensures Collect(own, [e]) == own(e)
  {
    assert [e][..0] == [];
  }

  lemma {:induction false} CollectMembers<T>(own: Expr -> seq<T>, nodes: seq<Expr>, x: T)
    ensures x in Collect(own, nodes) <==> exists n <- nodes :: x in own(n)
  {
    if nodes != [] {
      var k := |nodes| - 1;
      CollectMembers(own, nodes[..k], x);
      assert nodes == nodes[..k] + [nodes[k]];
      if x in own(nodes[k]) {
        assert nodes[k] in nodes;
      }
    }
  }

  lemma VisitedStep(enter: Expr -> bool, parent: Expr, es: seq<Expr>, i: nat)
    requires forall j :: 0 <= j < |es| ==> es[j] < parent
    requires i < |es|
    ensures VisitedAll(enter, parent, es[..i + 1]) == VisitedAll(enter, parent, es[..i]) + Visited(enter, es[i])
  {
    assert es[..i + 1][..i] == es[..i];
  }

  lemma VisitedNode(enter: Expr -> bool, e: Expr)
    ensures Visited(enter, e) == (if enter(e) then VisitedAll(enter, e, Kids(e)[..|Kids(e)|]) else []) + [e]
    ensures VisitedAll(enter, e, Kids(e)[..0]) == []
  {
    assert Kids(e)[..|Kids(e)|] == Kids(e);
  }

  /** Extending a traversal extends what has been gathered without repeats. */
  lemma GatherMore<T, K>(key: T -> K, own: Expr -> seq<T>, acc: seq<T>, a: seq<Expr>, b: seq<Expr>)
    ensures AddFresh(key, acc, Collect(own, a + b))
         == AddFresh(key, AddFresh(key, acc, Collect(own, a)), Collect(own, b))
  {
    CollectOfConcat(own, a, b);
    AddFreshTwice(key, acc, Collect(own, a), Collect(own, b));
  }

  lemma GatherOne<T, K>(key: T -> K, own: Expr -> seq<T>, acc: seq<T>, e: Expr)
    requires |own(e)| <= 1
    ensures AddFresh(key, acc, Collect(own, [e]))
         == if own(e) == [] || (exists i | 0 <= i < |acc| :: key(acc[i]) == key(own(e)[0])) then acc else acc + own(e)
  {
    CollectOfOne(own, e);
    if own(e) != [] {
      assert own(e) == [own(e)[0]] && own(e)[..0] == [];
    }
  }

  predicate Everywhere(e: Expr) { true }

  predicate NotRuntime(e: Expr) { !e.RuntimeFilter? }

  predicate IsExternalIn(e: Expr) { e.In? && e.set_.ExternalSet? }

  /** `_external_batches` does not go on into the tested expression of an external IN. */
  predicate NotExternal(e: Expr) { !e.RuntimeFilter? && !IsExternalIn(e) }

  // ---- What the rendered text mentions ---------------------------------------------------------

  datatype Mention =
    | ColumnMention(column: Expr)
    | PayloadMention(name: string, field: Field, scalar: Scalar)
    | KeysMention(batchIndex: nat, columnName: string, batch: KeyBatch)

  /** The mention that a node itself makes, with the node's own value. */
  function OwnMention(e: Expr): seq<Mention> {
    match e
    case ColumnRef(_, _, _) => [ColumnMention(e)]
    case Literal(ref, field, scalar) => [PayloadMention(PayloadName("value", ref), field, scalar)]
    case Cast(_, ref, field) => [PayloadMention(PayloadName("type", ref), field, NullScalar)]
    case In(_, LiteralSet(ref, field, values), _) => [PayloadMention(PayloadName("value", ref), field, ListOf(values))]
    case In(_, ExternalSet(index, _, name, batch), _) => [KeysMention(index, name, batch)]
    case _ => []
  }

  /** `_expression_sql` raises at runtime filters and at extension functions it has no rendering for. */
  predicate Refused(e: Expr) {
    match e
    case RuntimeFilter(_, _, _, _, _, _) => true
    case Call(Extended(identity), arguments, hasOptions) =>
      identity != INTERSECTS_EXTENT || |arguments| != 2 || hasOptions
    case _ => false
  }

  /** The text rendered for an expression mentions what its nodes mention; None when rendering raises. */
  function Rendered(e: Expr): Option<seq<Mention>> {
    var nodes := Visited(Everywhere, e);
    if exists i | 0 <= i < |nodes| :: Refused(nodes[i]) then None else Some(Collect(OwnMention, nodes))
  }

  // ---- The three gathering traversals ----------------------------------------------------------

  function ColumnKey(c: Expr): (nat, string) { if c.ColumnRef? then (c.columnIndex, c.columnName) else (0, "") }

  function OwnColumn(e: Expr): seq<Expr> { if e.ColumnRef? then [e] else [] }

  function PayloadKey(cell: (Field, Scalar)): string { cell.0.name }

  function OwnCell(e: Expr): seq<(Field, Scalar)> {
    match e
    case Literal(_, field, scalar) => [(field, scalar)]
    case Cast(_, _, field) => [(field, NullScalar)]
    case In(_, LiteralSet(_, field, values), _) => [(field, ListOf(values))]
    case _ => []
  }

  function OwnKeys(e: Expr): seq<(nat, KeyBatch)> {
    if IsExternalIn(e) then [(e.set_.batchIndex, e.set_.batch)] else []
  }

  function Columns(e: Expr): seq<Expr> { Collect(OwnColumn, Visited(Everywhere, e)) }

  function Cells(e: Expr): seq<(Field, Scalar)> { Collect(OwnCell, Visited(NotRuntime, e)) }

  /** Assigning to a dictionary in order: the last value of a key stays. */
  function LastWins(found: map<nat, KeyBatch>, items: seq<(nat, KeyBatch)>): map<nat, KeyBatch> {
    if items == [] then found
    else
      var (k, v) := items[|items| - 1];
      LastWins(found, items[..|items| - 1])[k := v]
  }

  lemma {:induction false} LastWinsTwice(found: map<nat, KeyBatch>, a: seq<(nat, KeyBatch)>, b: seq<(nat, KeyBatch)>)
    ensures LastWins(found, a + b) == LastWins(LastWins(found, a), b)
  {
    if b == [] {
      assert a + b == a;
    } else {
      LastWinsTwice(found, a, b[..|b| - 1]);
      assert (a + b)[..|a + b| - 1] == a + b[..|b| - 1];
    }
  }

  function KeyBatches(e: Expr): map<nat, KeyBatch> { LastWins(map[], Collect(OwnKeys, Visited(NotExternal, e))) }

  class ColumnCollector {
    var result: seq<Expr>
    var seen: set<(nat, string)>

    ghost predicate Valid()
      reads this
    {
      seen == set c <- result :: ColumnKey(c)
    }

    constructor ()
      ensures Valid() && result == []
    {
      result, seen := [], {};
    }

    /** `visit` of `expression_columns`. */
    method Visit(e: Expr)
      requires Valid()
      modifies this
      ensures Valid()
      ensures result == AddFresh(ColumnKey, old(result), Collect(OwnColumn, Visited(Everywhere, e)))
      decreases e
    {
      hide Visited, VisitedAll, Collect, AddFresh, Kids;
      ghost var before := result;
      var kids := Kids(e);
      VisitedNode(Everywhere, e);
      NothingGathered(ColumnKey, OwnColumn, before);
      for i := 0 to |kids|
        invariant Valid()
        invariant result == AddFresh(ColumnKey, before, Collect(OwnColumn, VisitedAll(Everywhere, e, kids[..i])))
      {
        VisitedStep(Everywhere, e, kids, i);
        GatherMore(ColumnKey, OwnColumn, before, VisitedAll(Everywhere, e, kids[..i]), Visited(Everywhere, kids[i]));
        Visit(kids[i]);
      }
      GatherMore(ColumnKey, OwnColumn, before, VisitedAll(Everywhere, e, kids[..|kids|]), [e]);
      GatherOne(ColumnKey, OwnColumn, result, e);
      if e.ColumnRef? {
        var key := (e.columnIndex, e.columnName);
        if key !in seen {
          ghost var gathered := result;
          seen := seen + {key};
          result := result + [e];
          assert ColumnKey(e) == key && forall c :: c in result <==> c in gathered || c == e;
        }
      }
    }
  }

  lemma NothingGathered<T, K>(key: T -> K, own: Expr -> seq<T>, acc: seq<T>)
    ensures AddFresh(key, acc, Collect(own, [])) == acc
  {
  }

  class PayloadBuilder {
    var cells: seq<(Field, Scalar)>
    var seen: set<string>

    ghost predicate Valid()
      reads this
    {
      seen == set c <- cells :: PayloadKey(c)
    }

    constructor ()
      ensures Valid() && cells == []
    {
      cells, seen := [], {};
    }

    /** `add_payload`: operands first, then the node's own field. */
    method AddPayload(e: Expr)
      requires Valid()
      modifies this
      ensures Valid()
      ensures cells == AddFresh(PayloadKey, old(cells), Collect(OwnCell, Visited(NotRuntime, e)))
      decreases e
    {
      hide Visited, VisitedAll, Collect, AddFresh, Kids;
      ghost var before := cells;
      VisitedNode(NotRuntime, e);
      NothingGathered(PayloadKey, OwnCell, before);
      if e.RuntimeFilter? {
        GatherMore(PayloadKey, OwnCell, before, [], [e]);
        GatherOne(PayloadKey, OwnCell, before, e);
        return;
      }
      var kids := Kids(e);
      for i := 0 to |kids|
        invariant Valid()
        invariant cells == AddFresh(PayloadKey, before, Collect(OwnCell, VisitedAll(NotRuntime, e, kids[..i])))
      {
        VisitedStep(NotRuntime, e, kids, i);
        GatherMore(PayloadKey, OwnCell, before, VisitedAll(NotRuntime, e, kids[..i]), Visited(NotRuntime, kids[i]));
        AddPayload(kids[i]);
      }
      GatherMore(PayloadKey, OwnCell, before, VisitedAll(NotRuntime, e, kids[..|kids|]), [e]);
      GatherOne(PayloadKey, OwnCell, cells, e);
      var own := OwnCell(e);
      if own != [] && PayloadKey(own[0]) !in seen {
        seen := seen + {PayloadKey(own[0])};
        cells := cells + own;
      }
    }
  }

  class KeyCollector {
    var found: map<nat, KeyBatch>

    constructor ()
      ensures found == map[]
    {
      found := map[];
    }

    /** `visit` of `_external_batches`. */
    method Visit(e: Expr)
      modifies this
      ensures found == LastWins(old(found), Collect(OwnKeys, Visited(NotExternal, e)))
      decreases e
    {
      hide Visited, VisitedAll, Collect, Kids;
      ghost var before := found;
      VisitedNode(NotExternal, e);
      CollectOfOne(OwnKeys, e);
      if IsExternalIn(e) {
        assert [] + [e] == [e];
        var own := OwnKeys(e);
        assert own == [own[0]] && own[..0] == [];
        found := found[e.set_.batchIndex := e.set_.batch];
      } else if !e.RuntimeFilter? {
        var kids := Kids(e);
        NoKeys(before);
        for i := 0 to |kids|
          invariant found == LastWins(before, Collect(OwnKeys, VisitedAll(NotExternal, e, kids[..i])))
        {
          VisitedStep(NotExternal, e, kids, i);
          KeysMore(before, VisitedAll(NotExternal, e, kids[..i]), Visited(NotExternal, kids[i]));
          Visit(kids[i]);
        }
        KeysMore(before, VisitedAll(NotExternal, e, kids[..|kids|]), [e]);
      } else {
        assert [] + [e] == [e];
      }
    }
  }

  lemma NoKeys(found: map<nat, KeyBatch>)
    ensures LastWins(found, Collect(OwnKeys, [])) == found
  {
  }

  lemma KeysMore(found: map<nat, KeyBatch>, a: seq<Expr>, b: seq<Expr>)
    ensures LastWins(found, Collect(OwnKeys, a + b))
            == LastWins(LastWins(found, Collect(OwnKeys, a)), Collect(OwnKeys, b))
  {
    CollectOfConcat(OwnKeys, a, b);
    LastWinsTwice(found, Collect(OwnKeys, a), Collect(OwnKeys, b));
  }

  // ---- The relations handed to DuckDB ----------------------------------------------------------

  /** Where a referenced column is in the batch being filtered. */
  function Position(batch: seq<Field>, c: Expr): (r: Option<nat>)
    requires c.ColumnRef?
    ensures r.Some? ==> r.value < |batch| && batch[r.value].name == c.columnName
  {
    if c.columnIndex < |batch| && batch[c.columnIndex].name == c.columnName then Some(c.columnIndex)
    else Find(batch, c.columnName)
  }

  /** The column of the batch a reference means: the one at its index if that has its name, or else the only one. */
  ghost predicate PlacedAt(batch: seq<Field>, c: Expr, p: nat)
    requires c.ColumnRef?
  {
    && p < |batch| && batch[p].name == c.columnName
    && (p != c.columnIndex ==>
          && !(c.columnIndex < |batch| && batch[c.columnIndex].name == c.columnName)
          && forall j :: 0 <= j < |batch| && batch[j].name == c.columnName ==> j == p)
  }

  lemma PositionExactly(batch: seq<Field>, c: Expr)
    requires c.ColumnRef?
    ensures forall p: nat :: Position(batch, c) == Some(p) <==> PlacedAt(batch, c, p)
  {
    hide Find;
    FindSpec(batch, c.columnName);
    forall p: nat ensures Position(batch, c) == Some(p) <==> PlacedAt(batch, c, p) {
      assert UniqueAt(batch, c.columnName, p) <==> Find(batch, c.columnName) == Some(p);
    }
  }

  /** The column is there, and has not changed type. */
  predicate Available(batch: seq<Field>, c: Expr) {
    && c.ColumnRef? && Position(batch, c).Some?
    && (c.columnType.Some? ==> batch[Position(batch, c).value].dtype == c.columnType.value)
  }

  function InputName(index: nat): string { "__vgi_col_" + Decimal.Render(index) }

  /** `input` pairs the name of each field with the position its array is taken from. */
  datatype Relations = Relations(input: seq<(string, nat)>, payload: seq<(Field, Scalar)>, keys: map<nat, KeyBatch>)

  function InputField(batch: seq<Field>, c: Expr): (string, nat)
    requires Available(batch, c)
  {
    (InputName(c.columnIndex), Position(batch, c).value)
  }

  function RelationsOf(e: Expr, batch: seq<Field>): Option<Relations> {
    var columns := AddFresh(ColumnKey, [], Columns(e));
    if exists i | 0 <= i < |columns| :: !Available(batch, columns[i]) then None
    else
      Some(Relations(seq(|columns|, i requires 0 <= i < |columns| => InputField(batch, columns[i])),
                     AddFresh(PayloadKey, [], Cells(e)), KeyBatches(e)))
  }

  /** The relations `_evaluate_expression` registers, or None when a column is unavailable or has changed type. */
  method BuildRelations(e: Expr, batch: seq<Field>) returns (r: Option<Relations>)
    ensures r == RelationsOf(e, batch)
  {
    hide Visited, Collect, AddFresh, LastWins, Available, Position, InputName;
    var columns := new ColumnCollector();
    columns.Visit(e);
    var input: seq<(string, nat)> := [];
    for i := 0 to |columns.result|
      invariant |input| == i
      invariant forall j :: 0 <= j < i ==> Available(batch, columns.result[j])
      invariant forall j :: 0 <= j < i ==> input[j] == InputField(batch, columns.result[j])
    {
      if !Available(batch, columns.result[i]) {
        return None;
      }
      input := input + [InputField(batch, columns.result[i])];
    }
    var payload := new PayloadBuilder();
    payload.AddPayload(e);
    var keys := new KeyCollector();
    keys.Visit(e);
    ghost var gathered := AddFresh(ColumnKey, [], Columns(e));
    assert input == seq(|gathered|, i requires 0 <= i < |gathered| => InputField(batch, gathered[i]));
    return Some(Relations(input, payload.cells, keys.found));
  }
}
