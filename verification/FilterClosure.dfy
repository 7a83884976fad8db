/**
 Every name that a rendered expression mentions is bound, to the value of the node that mentions it. Bound
 means registered for this evaluation; what earlier evaluations left on the connection is in `FilterConnection`.
 */
module FilterClosure {
  import opened Arrow
  import opened FilterModel
  import opened FilterParser
  import opened FilterDocument
  import opened FilterEvaluation
  import Decimal

  /** Exactly one field of the relation carries the mentioned name, and it holds the node's own value. */
  ghost predicate BoundIn(m: Mention, r: Relations, batch: seq<Field>) {
    match m
    case ColumnMention(c) =>
      c.ColumnRef? && exists k :: 0 <= k < |r.input| && OnlyInput(r, InputName(c.columnIndex), k)
                                  && PlacedAt(batch, c, r.input[k].1)
    case PayloadMention(name, field, scalar) =>
      exists k :: 0 <= k < |r.payload| && OnlyPayload(r, name, k) && r.payload[k] == (field, scalar)
    case KeysMention(index, _, keys) => index in r.keys && r.keys[index] == keys
  }

  ghost predicate OnlyInput(r: Relations, name: string, k: nat) {
    k < |r.input| && forall j :: 0 <= j < |r.input| ==> (r.input[j].0 == name <==> j == k)
  }

  ghost predicate OnlyPayload(r: Relations, name: string, k: nat) {
    k < |r.payload| && forall j :: 0 <= j < |r.payload| ==> (r.payload[j].0.name == name <==> j == k)
  }

  /** No two column references give one index two names. */
  ghost predicate OneNamePerIndex(e: Expr) {
    forall c, d | c in Columns(e) && d in Columns(e) && c.ColumnRef? && d.ColumnRef? ::
      c.columnIndex == d.columnIndex ==> c.columnName == d.columnName
  }

  /** The key batches of the external INs among some nodes. */
  function External(nodes: seq<Expr>): set<nat> { set n | n in nodes && IsExternalIn(n) :: n.set_.batchIndex }

  /** Key batches used inside the tested expression of an external IN. */
  ghost function Hidden(e: Expr): set<nat> {
    set n, k | n in Visited(Everywhere, e) && IsExternalIn(n) && k in External(Visited(Everywhere, n.arg)) :: k
  }

  function Visible(e: Expr): set<nat> { External(Visited(NotExternal, e)) }

  // ---- Traversals ------------------------------------------------------------------------------

  lemma {:induction false} VisitedAllMembers(enter: Expr -> bool, parent: Expr, es: seq<Expr>, n: Expr)
    requires forall i :: 0 <= i < |es| ==> es[i] < parent
    ensures n in VisitedAll(enter, parent, es) <==> exists i :: 0 <= i < |es| && n in Visited(enter, es[i])
    decreases |es|
  {
    hide Visited;
    if es != [] {
      VisitedAllMembers(enter, parent, es[..|es| - 1], n);
    }
  }

  lemma VisitedMembers(enter: Expr -> bool, e: Expr, n: Expr)
    ensures n in Visited(enter, e) <==>
              n == e || (enter(e) && exists i :: 0 <= i < |Kids(e)| && n in Visited(enter, Kids(e)[i]))
  {
    VisitedAllMembers(enter, e, Kids(e), n);
  }

  lemma {:induction false} VisitedBelow(e: Expr, x: Expr, n: Expr)
    requires x in Visited(Everywhere, e) && n in Visited(Everywhere, x)
    ensures n in Visited(Everywhere, e)
    decreases e
  {
    hide Visited;
    VisitedMembers(Everywhere, e, x);
    VisitedMembers(Everywhere, e, n);
    if x != e {
      var i :| 0 <= i < |Kids(e)| && x in Visited(Everywhere, Kids(e)[i]);
      VisitedBelow(Kids(e)[i], x, n);
    }
  }

  /** Without runtime filters, the payload traversal visits every node. */
  lemma {:induction false} NoRuntimeFilters(e: Expr, n: Expr)
    requires forall x <- Visited(Everywhere, e) :: !x.RuntimeFilter?
    ensures n in Visited(NotRuntime, e) <==> n in Visited(Everywhere, e)
    decreases e
  {
    hide Visited;
    VisitedMembers(Everywhere, e, e);
    VisitedMembers(Everywhere, e, n);
    VisitedMembers(NotRuntime, e, n);
    forall i | 0 <= i < |Kids(e)|
      ensures n in Visited(NotRuntime, Kids(e)[i]) <==> n in Visited(Everywhere, Kids(e)[i])
    {
      forall x | x in Visited(Everywhere, Kids(e)[i])
        ensures !x.RuntimeFilter?
      {
        VisitedMembers(Everywhere, e, x);
      }
      NoRuntimeFilters(Kids(e)[i], n);
    }
  }

  /** A node is missed by the key traversal only inside the tested expression of an external IN. */
  lemma {:induction false} MissedOnlyBelowExternal(e: Expr, n: Expr)
    requires forall x <- Visited(Everywhere, e) :: !x.RuntimeFilter?
    ensures n in Visited(NotExternal, e) ==> n in Visited(Everywhere, e)
    ensures n in Visited(Everywhere, e) ==>
              || n in Visited(NotExternal, e)
              || exists x <- Visited(Everywhere, e) :: IsExternalIn(x) && n in Visited(Everywhere, x.arg)
    decreases e
  {
    hide Visited;
    VisitedMembers(Everywhere, e, e);
    VisitedMembers(Everywhere, e, n);
    VisitedMembers(NotExternal, e, n);
    if IsExternalIn(e) {
      assert Kids(e) == [e.arg];
      if n != e && n in Visited(Everywhere, e) {
        assert e in Visited(Everywhere, e) && n in Visited(Everywhere, e.arg);
      }
    } else {
      forall i | 0 <= i < |Kids(e)|
        ensures n in Visited(NotExternal, Kids(e)[i]) ==> n in Visited(Everywhere, Kids(e)[i])
        ensures n in Visited(Everywhere, Kids(e)[i]) ==>
                  || n in Visited(NotExternal, Kids(e)[i])
                  || exists x <- Visited(Everywhere, e) :: IsExternalIn(x) && n in Visited(Everywhere, x.arg)
      {
        forall x | x in Visited(Everywhere, Kids(e)[i])
          ensures !x.RuntimeFilter? && x in Visited(Everywhere, e)
        {
          VisitedMembers(Everywhere, e, x);
        }
        MissedOnlyBelowExternal(Kids(e)[i], n);
      }
    }
  }

  // ---- What the parser guarantees of every node -----------------------------------------------

  /** Every node of an accepted expression refers to the payload cell, the key batch and the schema column it names. */
  lemma {:induction false} ElaboratedFromDocument(scan: Scan, row: OneRow, raw: Json, root: bool, n: Expr)
    requires Elaborate(scan, row, raw, root).Some? && n in Visited(Everywhere, Elaborate(scan, row, raw, root).value)
    ensures Refers(scan, row, n)
  {
    hide Elaborate, Visited, Refers, Spells, Belongs, WellTyped;
    var e := Elaborate(scan, row, raw, root).value;
    ElaboratedExactly(scan, row, raw, root, e);
    BelongsEverywhere(scan, row, e, n);
  }

  lemma {:induction false} BelongsEverywhere(scan: Scan, row: OneRow, e: Expr, n: Expr)
    requires Belongs(scan, row, e) && n in Visited(Everywhere, e)
    ensures Refers(scan, row, n)
    decreases e
  {
    hide Visited, Refers, Kids;
    VisitedMembers(Everywhere, e, n);
    if n != e {
      var i :| 0 <= i < |Kids(e)| && n in Visited(Everywhere, Kids(e)[i]);
      BelongsEverywhere(scan, row, Kids(e)[i], n);
    }
  }

  // ---- Names -----------------------------------------------------------------------------------

  lemma InputNameInjective(i: nat, j: nat)
    requires InputName(i) == InputName(j)
    ensures i == j
  {
    assert InputName(i)[|"__vgi_col_"|..] == Decimal.Render(i);
    assert InputName(j)[|"__vgi_col_"|..] == Decimal.Render(j);
    Decimal.RenderInjective(i, j);
  }

  /** A payload name denotes one column of the batch, whatever reference or prefix led to it. */
  lemma PayloadByName(row: OneRow, p: string, i: nat, f: Field, a: Scalar, q: string, j: nat, g: Field, b: Scalar)
    requires InRow(row, p, i, f, a) && InRow(row, q, j, g, b)
    ensures f.name == PayloadName(p, i) && g.name == PayloadName(q, j)
    ensures f.name == g.name ==> f == g && a == b
  {
    hide KnownExtensions;
  }

  // ---- Closure ---------------------------------------------------------------------------------

  lemma ColumnOccurs(e: Expr, c: Expr)
    ensures c in Columns(e) <==> c in Visited(Everywhere, e) && c.ColumnRef?
  {
    hide Visited;
    CollectMembers(OwnColumn, Visited(Everywhere, e), c);
  }

  function GatheredColumns(e: Expr): seq<Expr> { AddFresh(ColumnKey, [], Columns(e)) }

  function GatheredCells(e: Expr): seq<(Field, Scalar)> { AddFresh(PayloadKey, [], Cells(e)) }

  lemma GatheredColumnsCover(e: Expr)
    ensures var columns := GatheredColumns(e);
            && (forall i, j :: 0 <= i < j < |columns| ==> ColumnKey(columns[i]) != ColumnKey(columns[j]))
            && (forall i :: 0 <= i < |columns| ==> columns[i] in Columns(e))
  {
    hide AddFresh, Columns;
    FreshIsDistinct(ColumnKey, Columns(e));
  }

  lemma GatheredColumnFor(e: Expr, c: Expr) returns (k: nat)
    requires c in Columns(e)
    ensures k < |GatheredColumns(e)| && ColumnKey(GatheredColumns(e)[k]) == ColumnKey(c)
  {
    hide AddFresh, Columns, ColumnKey;
    var n :| 0 <= n < |Columns(e)| && Columns(e)[n] == c;
    k := FreshCovers(ColumnKey, Columns(e), n);
  }

  lemma GatheredCellsCover(e: Expr)
    ensures var cells := GatheredCells(e);
            && (forall i, j :: 0 <= i < j < |cells| ==> cells[i].0.name != cells[j].0.name)
            && (forall i :: 0 <= i < |cells| ==> cells[i] in Cells(e))
  {
    hide AddFresh, Cells;
    FreshIsDistinct(PayloadKey, Cells(e));
    var cells := GatheredCells(e);
    forall i, j | 0 <= i < j < |cells|
      ensures cells[i].0.name != cells[j].0.name
    {
      assert PayloadKey(cells[i]) != PayloadKey(cells[j]);
    }
  }

  lemma GatheredCellFor(e: Expr, c: (Field, Scalar)) returns (k: nat)
    requires c in Cells(e)
    ensures k < |GatheredCells(e)| && GatheredCells(e)[k].0.name == c.0.name
  {
    hide AddFresh, Cells;
    var n :| 0 <= n < |Cells(e)| && Cells(e)[n] == c;
    k := FreshCovers(PayloadKey, Cells(e), n);
  }

  /** The relations, one by one. */
  lemma RelationsAre(e: Expr, batch: seq<Field>)
    requires RelationsOf(e, batch).Some?
    ensures var r := RelationsOf(e, batch).value;
            var columns := GatheredColumns(e);
            && r.payload == GatheredCells(e) && r.keys == KeyBatches(e)
            && |r.input| == |columns|
            && forall k :: 0 <= k < |columns| ==>
                 && columns[k].ColumnRef? && Position(batch, columns[k]).Some?
                 && r.input[k].0 == InputName(columns[k].columnIndex)
                 && r.input[k].1 == Position(batch, columns[k]).value
  {
    hide Columns, AddFresh, InputName, Position, Cells, KeyBatches;
  }

  /** Among columns with distinct keys, one named as `c` is the only one with its rendered name. */
  lemma OnlyColumn(columns: seq<Expr>, input: seq<(string, nat)>, c: Expr, k: nat)
    requires |input| == |columns| && k < |columns| && c.ColumnRef?
    requires forall j :: 0 <= j < |columns| ==> columns[j].ColumnRef? && input[j].0 == InputName(columns[j].columnIndex)
    requires forall i, j :: 0 <= i < j < |columns| ==> ColumnKey(columns[i]) != ColumnKey(columns[j])
    requires forall j :: 0 <= j < |columns| && columns[j].columnIndex == c.columnIndex ==>
               columns[j].columnName == c.columnName
    requires ColumnKey(columns[k]) == ColumnKey(c)
    ensures forall j :: 0 <= j < |input| ==> (input[j].0 == InputName(c.columnIndex) <==> j == k)
  {
    hide InputName;
    forall j | 0 <= j < |input| && input[j].0 == InputName(c.columnIndex)
      ensures j == k
    {
      InputNameInjective(columns[j].columnIndex, c.columnIndex);
      assert ColumnKey(columns[j]) == ColumnKey(columns[k]);
    }
  }

  lemma ColumnIsBound(e: Expr, batch: seq<Field>, c: Expr)
    requires RelationsOf(e, batch).Some? && OneNamePerIndex(e)
    requires c in Columns(e) && c.ColumnRef?
    ensures BoundIn(ColumnMention(c), RelationsOf(e, batch).value, batch)
  {
    hide Columns, GatheredColumns, GatheredCells, RelationsOf, InputName, Position, KeyBatches, ColumnKey, PlacedAt;
    RelationsAre(e, batch);
    GatheredColumnsCover(e);
    var r := RelationsOf(e, batch).value;
    var columns := GatheredColumns(e);
    var k := GatheredColumnFor(e, c);
    SamePosition(batch, columns[k], c);
    PositionExactly(batch, c);
    forall j | 0 <= j < |columns| && columns[j].columnIndex == c.columnIndex
      ensures columns[j].columnName == c.columnName
    {
      assert columns[j] in Columns(e);
    }
    OnlyColumn(columns, r.input, c, k);
    assert OnlyInput(r, InputName(c.columnIndex), k);
  }

  lemma SamePosition(batch: seq<Field>, c: Expr, d: Expr)
    requires c.ColumnRef? && d.ColumnRef? && ColumnKey(c) == ColumnKey(d)
    ensures Position(batch, c) == Position(batch, d)
  {
  }

  /** Two names for one index make the rendered name ambiguous. */
  lemma AmbiguousColumn(e: Expr, batch: seq<Field>, c: Expr, d: Expr)
    requires RelationsOf(e, batch).Some?
    requires c in Columns(e) && d in Columns(e) && c.ColumnRef? && d.ColumnRef?
    requires c.columnIndex == d.columnIndex && c.columnName != d.columnName
    ensures !BoundIn(ColumnMention(c), RelationsOf(e, batch).value, batch)
  {
    hide Columns, GatheredColumns, GatheredCells, RelationsOf, InputName, Position;
    RelationsAre(e, batch);
    GatheredColumnsCover(e);
    var r := RelationsOf(e, batch).value;
    var columns := GatheredColumns(e);
    var i := GatheredColumnFor(e, c);
    var j := GatheredColumnFor(e, d);
    assert r.input[i].0 == InputName(c.columnIndex) == r.input[j].0 && i != j;
  }

  /** The column is in the batch, of the type it had when the expression was read. */
  ghost predicate InBatch(batch: seq<Field>, c: Expr)
    requires c.ColumnRef?
  {
    exists p: nat :: PlacedAt(batch, c, p) && (c.columnType.Some? ==> batch[p].dtype == c.columnType.value)
  }

  lemma AvailableExactly(batch: seq<Field>, c: Expr)
    requires c.ColumnRef?
    ensures Available(batch, c) <==> InBatch(batch, c)
  {
    hide Position, PlacedAt;
    PositionExactly(batch, c);
    if Position(batch, c).Some? {
      assert PlacedAt(batch, c, Position(batch, c).value);
    }
  }

  /** Relations are built exactly when every column that is referred to is in the batch. */
  lemma RelationsExactly(scan: Scan, row: OneRow, e: Expr, batch: seq<Field>)
    requires forall x <- Visited(Everywhere, e) :: Refers(scan, row, x)
    ensures RelationsOf(e, batch).Some?
            <==> forall c | c in Visited(Everywhere, e) && c.ColumnRef? :: InBatch(batch, c)
  {
    hide Visited, Columns, AddFresh, Available, InBatch, Cells, KeyBatches, ColumnKey;
    var columns := GatheredColumns(e);
    GatheredColumnsCover(e);
    forall c | c in Visited(Everywhere, e) && c.ColumnRef?
      ensures c in columns
      ensures Available(batch, c) <==> InBatch(batch, c)
    {
      ColumnOccurs(e, c);
      AvailableExactly(batch, c);
      var k := GatheredColumnFor(e, c);
      ColumnOccurs(e, columns[k]);
      SameColumn(scan, row, columns[k], c);
    }
    forall i | 0 <= i < |columns|
      ensures columns[i] in Visited(Everywhere, e) && columns[i].ColumnRef?
    {
      ColumnOccurs(e, columns[i]);
    }
    RelationsWhenAvailable(e, batch);
  }

  lemma RelationsWhenAvailable(e: Expr, batch: seq<Field>)
    ensures RelationsOf(e, batch).Some? <==> forall c <- GatheredColumns(e) :: Available(batch, c)
  {
    hide Columns, AddFresh, Available, Cells, KeyBatches;
  }

  /** One scan refers to a column of one index and name in one way. */
  lemma SameColumn(scan: Scan, row: OneRow, c: Expr, d: Expr)
    requires Refers(scan, row, c) && Refers(scan, row, d) && c.ColumnRef? && d.ColumnRef?
    requires ColumnKey(c) == ColumnKey(d)
    ensures c == d
  {
  }

  /** An expression is rendered exactly when it is no runtime filter and every extension call has two operands. */
  lemma RenderedExactly(scan: Scan, row: OneRow, raw: Json)
    requires Elaborate(scan, row, raw, true).Some?
    ensures var e := Elaborate(scan, row, raw, true).value;
            Rendered(e).Some?
            <==> !e.RuntimeFilter? && forall n | n in Visited(Everywhere, e) && n.Call? && n.function_.Extended? ::
                   |n.arguments| == 2
  {
    hide Elaborate, Visited, Collect, WellTyped;
    var e := Elaborate(scan, row, raw, true).value;
    ElaboratedIsWellTyped(scan, row, raw, true);
    forall n | n in Visited(Everywhere, e)
      ensures Refused(n) <==> n.RuntimeFilter? || (n.Call? && n.function_.Extended? && |n.arguments| != 2)
      ensures n.RuntimeFilter? ==> n == e
    {
      TypedEverywhere(e, true, n);
      CallsAreKnown(n, n == e);
    }
    VisitedMembers(Everywhere, e, e);
    RenderedWhen(e);
    hide Refused, Rendered;
  }

  lemma RenderedWhen(e: Expr)
    ensures Rendered(e).Some? <==> forall n <- Visited(Everywhere, e) :: !Refused(n)
  {
    hide Visited, Collect, Refused;
    var nodes := Visited(Everywhere, e);
    assert forall i :: 0 <= i < |nodes| ==> nodes[i] in nodes;
  }

  lemma CallsAreKnown(n: Expr, root: bool)
    requires WellTyped(n, root)
    ensures n.Call? ==> !n.hasOptions && (n.function_.Extended? ==> n.function_.identity == INTERSECTS_EXTENT)
    ensures n.RuntimeFilter? ==> root
  {
  }

  lemma {:induction false} TypedEverywhere(e: Expr, root: bool, n: Expr)
    requires WellTyped(e, root) && n in Visited(Everywhere, e)
    ensures WellTyped(n, root && n == e)
    decreases e
  {
    hide Visited, Kids, WellTyped;
    VisitedMembers(Everywhere, e, n);
    if n != e {
      var i :| 0 <= i < |Kids(e)| && n in Visited(Everywhere, Kids(e)[i]);
      KidsAreWellTyped(e, root);
      TypedEverywhere(Kids(e)[i], false, n);
    } else {
      assert root && n == e <==> root;
    }
  }

  lemma PayloadIsBound(scan: Scan, row: OneRow, e: Expr, batch: seq<Field>, n: Expr)
    requires RelationsOf(e, batch).Some?
    requires forall x <- Visited(Everywhere, e) :: Refers(scan, row, x) && !x.RuntimeFilter?
    requires n in Visited(Everywhere, e) && OwnCell(n) != []
    ensures |OwnMention(n)| == 1
    ensures BoundIn(OwnMention(n)[0], RelationsOf(e, batch).value, batch)
  {
    hide Visited, RelationsOf, GatheredColumns, GatheredCells, Refers, OwnCell, OwnMention, KeyBatches, Cells;
    hide Columns, Position, InputName;
    var r := RelationsOf(e, batch).value;
    RelationsAre(e, batch);
    GatheredCellsCover(e);
    var cell := OwnCell(n)[0];
    CellIsGathered(e, n);
    var k := GatheredCellFor(e, cell);
    SameGatheredCell(scan, row, e, n, r.payload[k]);
    assert OnlyPayload(r, cell.0.name, k);
  }

  lemma CellIsGathered(e: Expr, n: Expr)
    requires forall x <- Visited(Everywhere, e) :: !x.RuntimeFilter?
    requires n in Visited(Everywhere, e) && OwnCell(n) != []
    ensures OwnCell(n)[0] in Cells(e)
  {
    hide Visited, Collect, OwnCell;
    NoRuntimeFilters(e, n);
    CollectMembers(OwnCell, Visited(NotRuntime, e), OwnCell(n)[0]);
  }

  lemma SameGatheredCell(scan: Scan, row: OneRow, e: Expr, n: Expr, cell: (Field, Scalar))
    requires forall x <- Visited(Everywhere, e) :: Refers(scan, row, x) && !x.RuntimeFilter?
    requires n in Visited(Everywhere, e) && OwnCell(n) != []
    requires cell in Cells(e) && cell.0.name == OwnCell(n)[0].0.name
    ensures OwnMention(n) == [PayloadMention(cell.0.name, cell.0, cell.1)]
  {
    hide Visited, Cells, OwnCell, OwnMention, Refers;
    CellComesFrom(e, cell);
    var m :| m in Visited(NotRuntime, e) && cell in OwnCell(m);
    NoRuntimeFilters(e, m);
    OneCell(m);
    SameCell(scan, row, m, n);
  }

  lemma CellComesFrom(e: Expr, cell: (Field, Scalar))
    requires cell in Cells(e)
    ensures exists m <- Visited(NotRuntime, e) :: cell in OwnCell(m)
  {
    hide Visited, Collect, OwnCell;
    CollectMembers(OwnCell, Visited(NotRuntime, e), cell);
  }

  lemma OneCell(m: Expr)
    ensures |OwnCell(m)| <= 1
  {
  }

  /** Nodes whose payload fields share a name share the whole field and value. */
  lemma SameCell(scan: Scan, row: OneRow, m: Expr, n: Expr)
    requires Refers(scan, row, m) && Refers(scan, row, n) && OwnCell(m) != [] && OwnCell(n) != []
    ensures OwnCell(m)[0].0.name == OwnCell(n)[0].0.name ==> OwnCell(m) == OwnCell(n)
    ensures OwnMention(n) == [PayloadMention(OwnCell(n)[0].0.name, OwnCell(n)[0].0, OwnCell(n)[0].1)]
  {
    hide InRow, PayloadName;
    var (p, i) := Reference(m);
    var (q, j) := Reference(n);
    var a, b := OwnCell(m)[0], OwnCell(n)[0];
    PayloadByName(row, p, i, a.0, a.1, q, j, b.0, b.1);
  }

  function Reference(n: Expr): (string, nat) {
    match n
    case Literal(ref, _, _) => ("value", ref)
    case Cast(_, ref, _) => ("type", ref)
    case In(_, LiteralSet(ref, _, _), _) => ("value", ref)
    case _ => ("", 0)
  }

  lemma {:induction false} LastWinsIsOne(items: seq<(nat, KeyBatch)>, k: nat)
    ensures k in LastWins(map[], items) <==> exists x <- items :: x.0 == k
    ensures k in LastWins(map[], items) ==> (k, LastWins(map[], items)[k]) in items
  {
    if items != [] {
      LastWinsIsOne(items[..|items| - 1], k);
      assert items == items[..|items| - 1] + [items[|items| - 1]];
    }
  }

  lemma KeysBoundExactly(scan: Scan, row: OneRow, e: Expr, k: nat)
    requires forall x <- Visited(Everywhere, e) :: Refers(scan, row, x) && !x.RuntimeFilter?
    ensures k in KeyBatches(e) <==> k in Visible(e)
    ensures k in KeyBatches(e) ==> k < |scan.joinKeys| && KeyBatches(e)[k] == scan.joinKeys[k]
  {
    hide Visited, Collect, LastWins;
    var items := Collect(OwnKeys, Visited(NotExternal, e));
    LastWinsIsOne(items, k);
    if k in KeyBatches(e) {
      var x := (k, KeyBatches(e)[k]);
      CollectMembers(OwnKeys, Visited(NotExternal, e), x);
      var n :| n in Visited(NotExternal, e) && x in OwnKeys(n);
      MissedOnlyBelowExternal(e, n);
      assert Refers(scan, row, n);
    }
    if k in Visible(e) {
      var n :| n in Visited(NotExternal, e) && IsExternalIn(n) && n.set_.batchIndex == k;
      CollectMembers(OwnKeys, Visited(NotExternal, e), (k, n.set_.batch));
    }
  }

  /** Every key batch is met by the traversal or hidden from it. */
  lemma ExternalIsVisibleOrHidden(e: Expr)
    requires forall x <- Visited(Everywhere, e) :: !x.RuntimeFilter?
    ensures External(Visited(Everywhere, e)) == Visible(e) + Hidden(e)
  {
    hide Visited;
    forall k | k in External(Visited(Everywhere, e))
      ensures k in Visible(e) + Hidden(e)
    {
      var n :| n in Visited(Everywhere, e) && IsExternalIn(n) && n.set_.batchIndex == k;
      MissedOnlyBelowExternal(e, n);
      if n !in Visited(NotExternal, e) {
        var x :| x in Visited(Everywhere, e) && IsExternalIn(x) && n in Visited(Everywhere, x.arg);
        assert k in External(Visited(Everywhere, x.arg));
      }
    }
    forall k | k in Visible(e)
      ensures k in External(Visited(Everywhere, e))
    {
      var n :| n in Visited(NotExternal, e) && IsExternalIn(n) && n.set_.batchIndex == k;
      MissedOnlyBelowExternal(e, n);
    }
    forall k | k in Hidden(e)
      ensures k in External(Visited(Everywhere, e))
    {
      var x :| x in Visited(Everywhere, e) && IsExternalIn(x) && k in External(Visited(Everywhere, x.arg));
      var n :| n in Visited(Everywhere, x.arg) && IsExternalIn(n) && n.set_.batchIndex == k;
      assert Kids(x)[0] == x.arg;
      VisitedMembers(Everywhere, x, n);
      VisitedBelow(e, x, n);
    }
  }

  lemma MentionsOfNodes(e: Expr, m: Mention)
    requires Rendered(e).Some?
    ensures m in Rendered(e).value <==> exists n <- Visited(Everywhere, e) :: m in OwnMention(n)
    ensures forall n <- Visited(Everywhere, e) :: !Refused(n)
  {
    hide Visited, Refused;
    CollectMembers(OwnMention, Visited(Everywhere, e), m);
  }

  /** What is mentioned of columns and key batches. */
  lemma MentionsAreBound(scan: Scan, row: OneRow, e: Expr, batch: seq<Field>, m: Mention)
    requires Rendered(e).Some? && RelationsOf(e, batch).Some? && m in Rendered(e).value
    requires forall x <- Visited(Everywhere, e) :: Refers(scan, row, x) && !x.RuntimeFilter?
    requires OneNamePerIndex(e) && Hidden(e) <= Visible(e)
    ensures BoundIn(m, RelationsOf(e, batch).value, batch)
  {
    hide Visited, Rendered, Columns, AddFresh, Available, Payload, PayloadName, Collect, KeyBatches, Hidden, Visible;
    MentionsOfNodes(e, m);
    var n :| n in Visited(Everywhere, e) && m in OwnMention(n);
    if OwnCell(n) != [] {
      PayloadIsBound(scan, row, e, batch, n);
    } else if n.ColumnRef? {
      ColumnOccurs(e, n);
      ColumnIsBound(e, batch, n);
    } else {
      var k := n.set_.batchIndex;
      ExternalIsVisibleOrHidden(e);
      assert k in External(Visited(Everywhere, e));
      KeysBoundExactly(scan, row, e, k);
    }
  }

  /**
   For every expression the parser accepts and the renderer renders, and every batch that has its columns:
   all mentioned names are bound to their nodes' own values exactly when no column index goes by two names
   and no key batch is used only inside the tested expression of an external IN.
   */
  lemma EvaluationIsClosed(scan: Scan, row: OneRow, raw: Json, batch: seq<Field>)
    requires Elaborate(scan, row, raw, true).Some?
    requires Rendered(Elaborate(scan, row, raw, true).value).Some?
    requires RelationsOf(Elaborate(scan, row, raw, true).value, batch).Some?
    ensures var e := Elaborate(scan, row, raw, true).value;
            (forall m <- Rendered(e).value :: BoundIn(m, RelationsOf(e, batch).value, batch))
            <==> OneNamePerIndex(e) && Hidden(e) <= Visible(e)
  {
    hide Elaborate, Visited, Columns, AddFresh, Available, Collect, Refers, Hidden, Visible, KeyBatches, Rendered;
    var e := Elaborate(scan, row, raw, true).value;
    var r := RelationsOf(e, batch).value;
    AllFromDocument(scan, row, raw);
    if OneNamePerIndex(e) && Hidden(e) <= Visible(e) {
      forall m | m in Rendered(e).value
        ensures BoundIn(m, r, batch)
      {
        MentionsAreBound(scan, row, e, batch, m);
      }
    } else if !OneNamePerIndex(e) {
      var c, d :| c in Columns(e) && d in Columns(e) && c.ColumnRef? && d.ColumnRef?
                  && c.columnIndex == d.columnIndex && c.columnName != d.columnName;
      AmbiguousColumn(e, batch, c, d);
      ColumnOccurs(e, c);
      MentionsOfNodes(e, ColumnMention(c));
      assert ColumnMention(c) in OwnMention(c);
    } else {
      var k :| k in Hidden(e) && k !in Visible(e);
      ExternalIsVisibleOrHidden(e);
      assert k in External(Visited(Everywhere, e));
      var n :| n in Visited(Everywhere, e) && IsExternalIn(n) && n.set_.batchIndex == k;
      KeysBoundExactly(scan, row, e, k);
      var m := KeysMention(k, n.set_.columnName, n.set_.batch);
      assert m in OwnMention(n);
      MentionsOfNodes(e, m);
      assert !BoundIn(m, r, batch);
    }
  }

  lemma AllFromDocument(scan: Scan, row: OneRow, raw: Json)
    requires Elaborate(scan, row, raw, true).Some? && Rendered(Elaborate(scan, row, raw, true).value).Some?
    ensures forall x <- Visited(Everywhere, Elaborate(scan, row, raw, true).value) ::
              Refers(scan, row, x) && !x.RuntimeFilter?
  {
    hide Elaborate, Visited, Refers, Collect;
    var e := Elaborate(scan, row, raw, true).value;
    forall x | x in Visited(Everywhere, e)
      ensures Refers(scan, row, x) && !x.RuntimeFilter?
    {
      ElaboratedFromDocument(scan, row, raw, true, x);
      var i :| 0 <= i < |Visited(Everywhere, e)| && Visited(Everywhere, e)[i] == x;
      assert !Refused(x);
    }
  }

  /** With a known output schema the parser leaves no index with two names. */
  lemma SchemaGivesOneName(scan: Scan, row: OneRow, raw: Json)
    requires Elaborate(scan, row, raw, true).Some? && scan.outputSchema.Some?
    ensures OneNamePerIndex(Elaborate(scan, row, raw, true).value)
  {
    hide Elaborate, Visited, Collect;
    var e := Elaborate(scan, row, raw, true).value;
    forall c, d | c in Columns(e) && d in Columns(e) && c.ColumnRef? && d.ColumnRef? && c.columnIndex == d.columnIndex
      ensures c.columnName == d.columnName
    {
      ColumnOccurs(e, c);
      ColumnOccurs(e, d);
      ElaboratedFromDocument(scan, row, raw, true, c);
      ElaboratedFromDocument(scan, row, raw, true, d);
    }
  }
}
