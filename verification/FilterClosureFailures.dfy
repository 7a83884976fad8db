/**
 Snapshots the parser accepts and predicates the renderer renders, whose evaluation leaves a mentioned name unbound
 or bound to the keys of an earlier evaluation.
 */
module FilterClosureFailures {
  import opened Common
  import opened Arrow
  import opened FilterModel
  import opened FilterParser
  import opened FilterDocument
  import opened FilterDelta
  import opened FilterSnapshot
  import opened FilterMessages
  import opened FilterEvaluation
  import opened FilterClosure
  import opened FilterConnection
  import Bytes

  // ---- The documents ---------------------------------------------------------------------------

  /** A snapshot of one required predicate. */
  function SnapshotDoc(context: Context, row: OneRow, e: Expr): Document {
    Document(context, row,
             map["encoding" := JString("vgi.filters.v2"), "semantics" := JString("vgi.duckdb.standard.v1"),
                               "kind" := JString("snapshot"), "predicates" := JArray([PredicateDoc(e)])])
  }

  function PredicateDoc(e: Expr): Json {
    JObject(map["id" := JString("p"), "revision" := JInt(0), "mode" := JString("required"),
                "source" := JString("query"),
                "expression" := DocumentOf(e)])
  }

  function Installed(e: Expr): Predicate { Predicate("p", 0, Required, Query, e) }

  /** The parser reads the expression from its document, and accepts a snapshot with it as the only predicate. */
  ghost predicate Accepts(scan: Scan, context: Context, row: OneRow, reading: Reading, e: Expr) {
    && Elaborate(scan, row, DocumentOf(e), true) == Some(e)
    && ApplySnapshot(scan, SnapshotDoc(context, row, e), reading)
       == Some(InitialState(scan, context, [Installed(e)]))
  }

  /** A Boolean root within the limits, evaluated alike in every session. */
  predicate Fits(e: Expr) {
    Height(e) <= MAX_DEPTH && Size(e) <= MAX_NODES && !RequiresSession(e) && !e.RuntimeFilter? && IsBoolean(e)
  }

  lemma IsAccepted(scan: Scan, context: Context, row: OneRow, reading: Reading, e: Expr)
    requires WellTyped(e, true) && Belongs(scan, row, e) && Fits(e) && scan.outputSchema.None?
    ensures Accepts(scan, context, row, reading, e)
  {
    hide Elaborate, ApplySnapshot, WellTyped, Belongs, Height, Size, RequiresSession, IsBoolean, Spells, DocumentOf;
    hide SpellsPredicate, Admits;
    RoundTrip(scan, row, e, true);
    SpellsInstalled(e);
    AdmitsInstalled(scan, context, row, reading, e);
    OnePredicate(e);
    SnapshotExactly(scan, SnapshotDoc(context, row, e), reading, InitialState(scan, context, [Installed(e)]));
  }

  lemma SpellsInstalled(e: Expr)
    requires WellTyped(e, true)
    ensures SpellsPredicate(PredicateDoc(e).members, Installed(e), false)
  {
    hide WellTyped, DocumentOf, Spells;
    DocumentSpells(e, true);
    assert PredicateDoc(e).members.Keys == {"id", "revision", "mode", "source", "expression"};
  }

  lemma AdmitsInstalled(scan: Scan, context: Context, row: OneRow, reading: Reading, e: Expr)
    requires WellTyped(e, true) && Belongs(scan, row, e) && Fits(e) && scan.outputSchema.None?
    ensures Admits(scan, row, context, reading, Installed(e))
  {
    hide WellTyped, Belongs, Height, Size, RequiresSession, IsBoolean;
    assert "p"[1..] == "";
    assert Bytes.Utf8Length("p") <= 128;
  }

  lemma OnePredicate(e: Expr)
    ensures TotalNodes([Installed(e)]) == Size(e)
  {
    hide Size;
    assert [Installed(e)][..0] == [];
  }

  // ---- Relations over columns alone ------------------------------------------------------------

  lemma ColumnsAreAvailable(e: Expr, batch: seq<Field>)
    requires forall c <- Columns(e) :: Available(batch, c)
    ensures RelationsOf(e, batch).Some?
  {
    hide Columns, AddFresh, Available, Cells, KeyBatches;
    FreshIsDistinct(ColumnKey, Columns(e));
  }

  lemma NothingRefused(e: Expr)
    requires forall n <- Visited(Everywhere, e) :: !Refused(n)
    ensures Rendered(e).Some?
  {
    hide Visited, Refused, Collect;
    var nodes := Visited(Everywhere, e);
    assert forall i :: 0 <= i < |nodes| ==> nodes[i] in nodes;
  }

  // ---- A key batch inside the tested expression of an external IN ------------------------------

  /** An external IN whose tested expression is another external IN: the inner key batch stays unbound. */
  lemma NestedKeysAreHidden(c: Expr, s: FilterSet, t: FilterSet)
    requires c.ColumnRef? && s.ExternalSet? && t.ExternalSet? && s.batchIndex != t.batchIndex
    ensures var e := In(In(c, s, false), t, false);
            && Hidden(e) == {s.batchIndex} && Visible(e) == {t.batchIndex}
            && Columns(e) == [c] && Rendered(e).Some?
  {
    hide Visited, Collect, LastWins;
    var f := In(c, s, false);
    var e := In(f, t, false);
    assert Kids(e) == [f] && Kids(f) == [c] && Kids(c) == [];
    forall n
      ensures n in Visited(NotExternal, e) <==> n == e
      ensures n in Visited(Everywhere, c) <==> n == c
      ensures n in Visited(Everywhere, f) <==> n == f || n == c
      ensures n in Visited(Everywhere, e) <==> n == e || n == f || n == c
    {
      VisitedMembers(NotExternal, e, n);
      VisitedMembers(Everywhere, e, n);
      VisitedMembers(Everywhere, f, n);
      VisitedMembers(Everywhere, c, n);
      assert Kids(e)[0] == f && Kids(f)[0] == c;
    }
    assert f in Visited(Everywhere, e) && f in Visited(Everywhere, e.arg) && e in Visited(Everywhere, e);
    assert s.batchIndex in External(Visited(Everywhere, e.arg));
    NothingRefused(e);
    ColumnsOfNested(c, f, e);
  }

  lemma VisitedOne(e: Expr, kid: Expr)
    requires Kids(e) == [kid]
    ensures Visited(Everywhere, e) == Visited(Everywhere, kid) + [e]
  {
    VisitedNode(Everywhere, e);
    VisitedStep(Everywhere, e, Kids(e), 0);
    assert Kids(e)[..1] == Kids(e);
  }

  lemma ColumnsOfNested(c: Expr, f: Expr, e: Expr)
    requires c.ColumnRef? && f.In? && e.In? && Kids(f) == [c] && Kids(e) == [f]
    ensures Columns(e) == [c]
  {
    hide Visited, Collect;
    VisitedOne(e, f);
    VisitedOne(f, c);
    VisitedNode(Everywhere, c);
    assert Visited(Everywhere, c) == [c];
    CollectOfConcat(OwnColumn, Visited(Everywhere, f), [e]);
    CollectOfConcat(OwnColumn, [c], [f]);
    CollectOfOne(OwnColumn, e);
    CollectOfOne(OwnColumn, f);
    CollectOfOne(OwnColumn, c);
  }

  /** The set is a column of a key batch of the scan. */
  ghost predicate KeyColumn(scan: Scan, row: OneRow, s: FilterSet) { s.ExternalSet? && RefersToSet(scan, row, s) }

  function Tested(name: string, s: FilterSet): Expr { In(ColumnRef(0, name, None), s, false) }

  /** Column 0 tested against one key batch, and the outcome against another. */
  function Nested(name: string, s: FilterSet, t: FilterSet): Expr { In(Tested(name, s), t, false) }

  lemma NestedBelongs(scan: Scan, row: OneRow, name: string, s: FilterSet, t: FilterSet)
    requires scan.outputSchema.None? && name != "" && KeyColumn(scan, row, s) && KeyColumn(scan, row, t)
    ensures Belongs(scan, row, Tested(name, s)) && Belongs(scan, row, Nested(name, s, t))
    ensures WellTyped(Tested(name, s), true) && WellTyped(Nested(name, s, t), true)
  {
    hide RefersToSet;
    var c := ColumnRef(0, name, None);
    assert Belongs(scan, row, c);
    assert Kids(Tested(name, s)) == [c] && Kids(Nested(name, s, t)) == [Tested(name, s)];
    assert WellTyped(c, false) && WellTyped(Tested(name, s), false);
  }

  lemma NestedFits(name: string, s: FilterSet, t: FilterSet)
    ensures Fits(Tested(name, s)) && Fits(Nested(name, s, t))
  {
    var c := ColumnRef(0, name, None);
    assert Height(c) == 1 && Size(c) == 1 && !RequiresSession(c);
    var f := Tested(name, s);
    assert Height(f) == 2 && Size(f) == 2 && !RequiresSession(f);
  }

  /**
   For every scan without a known output schema, any column, and any columns of two different key batches:
   a snapshot with the nested IN is accepted, it is rendered, its relations are built, and some mentioned name is
   unbound. With a known schema the bind test may refuse such a document when it first arrives.
   */
  lemma NestedKeyBatchIsUnbound(scan: Scan, row: OneRow, context: Context, reading: Reading, field: Field,
                                s: FilterSet, t: FilterSet)
    requires scan.outputSchema.None? && KeyColumn(scan, row, s) && KeyColumn(scan, row, t)
    requires s.batchIndex != t.batchIndex && field.name != ""
    ensures var e := Nested(field.name, s, t);
            && Accepts(scan, context, row, reading, e)
            && Rendered(e).Some? && RelationsOf(e, [field]).Some?
            && Hidden(e) == {s.batchIndex} && Visible(e) == {t.batchIndex}
            && exists m <- Rendered(e).value :: !BoundIn(m, RelationsOf(e, [field]).value, [field])
  {
    hide Elaborate, RefersToSet, Rendered, RelationsOf, BoundIn, Hidden, Visible, Columns, OneNamePerIndex, Fits;
    hide ApplySnapshot, InitialState, SnapshotDoc, DocumentOf, WellTyped, Belongs;
    var e, c := Nested(field.name, s, t), ColumnRef(0, field.name, None);
    NestedBelongs(scan, row, field.name, s, t);
    NestedFits(field.name, s, t);
    IsAccepted(scan, context, row, reading, e);
    NestedKeysAreHidden(c, s, t);
    assert Available([field], c);
    ColumnsAreAvailable(e, [field]);
    EvaluationIsClosed(scan, row, DocumentOf(e), [field]);
    assert s.batchIndex in Hidden(e) && s.batchIndex !in Visible(e);
  }

  lemma PlainInKeys(e: Expr)
    requires IsExternalIn(e)
    ensures KeyBatches(e) == map[e.set_.batchIndex := e.set_.batch]
  {
    hide Visited, Collect;
    VisitedNode(NotExternal, e);
    assert [] + [e] == [e];
    CollectOfOne(OwnKeys, e);
    var own := OwnKeys(e);
    assert own == [own[0]] && own[..0] == [] && LastWins(map[], []) == map[];
  }

  /** An external IN over a column alone finds its column and registers its key batch. */
  lemma PlainInRegisters(context: Context, c: Expr, s: FilterSet, field: Field)
    requires c == ColumnRef(0, field.name, None) && s.ExternalSet?
    ensures Registering(Evaluation(context, In(c, s, false), [field])) == map[s.batchIndex := s.batch]
  {
    hide Visited, Collect, KeyBatches, RelationsOf;
    var e := In(c, s, false);
    PlainInKeys(e);
    VisitedOne(e, c);
    VisitedNode(Everywhere, c);
    CollectOfConcat(OwnColumn, Visited(Everywhere, c), [e]);
    assert Visited(Everywhere, c) == [c];
    CollectOfOne(OwnColumn, c);
    CollectOfOne(OwnColumn, e);
    assert Columns(e) == [c] && Available([field], c);
    ColumnsAreAvailable(e, [field]);
  }

  /**
   One thread evaluates a predicate of an earlier scan that tests column 0 against a key batch, and then the nested
   predicate of another scan: its inner test reads the earlier scan's keys, so that every name stands for its own
   value exactly when the two scans' batches are the same.
   */
  lemma EarlierKeysAreRead(earlier: Scan, scan: Scan, row: OneRow, context: Context, reading: Reading, field: Field,
                           s0: FilterSet, s: FilterSet, t: FilterSet)
    requires earlier.outputSchema.None? && KeyColumn(earlier, row, s0)
    requires scan.outputSchema.None? && KeyColumn(scan, row, s) && KeyColumn(scan, row, t)
    requires s0.batchIndex == s.batchIndex != t.batchIndex && field.name != ""
    ensures Accepts(earlier, context, row, reading, Tested(field.name, s0))
    ensures Accepts(scan, context, row, reading, Nested(field.name, s, t))
    ensures var e := Nested(field.name, s, t);
            var ev := Evaluation(context, e, [field]);
            var keys := KeysOn(AfterAll([Evaluation(context, Tested(field.name, s0), [field]), ev]), context);
            && Seen(ev, keys).Some? && s.batchIndex in keys && keys[s.batchIndex] == s0.batch
            && ((forall m <- Rendered(e).value :: BoundIn(m, Seen(ev, keys).value, [field])) <==> s0.batch == s.batch)
  {
    hide Elaborate, Rendered, RelationsOf, BoundIn, Hidden, Visible, Columns, OneNamePerIndex, Fits;
    hide ApplySnapshot, InitialState, SnapshotDoc, DocumentOf, KeyBatches, Registering, WellTyped, Belongs;
    var e, c := Nested(field.name, s, t), ColumnRef(0, field.name, None);
    NestedBelongs(earlier, row, field.name, s0, s0);
    NestedFits(field.name, s0, s0);
    IsAccepted(earlier, context, row, reading, Tested(field.name, s0));
    PlainInRegisters(context, c, s0, field);
    NestedKeyBatchIsUnbound(scan, row, context, reading, field, s, t);
    var before, ev := Evaluation(context, Tested(field.name, s0), [field]), Evaluation(context, e, [field]);
    NestedKeysAreHidden(c, s, t);
    OneColumn(e, c);
    OneMoreEvaluation([before], ev);
    OneMoreEvaluation([], before);
    assert [] + [before] == [before] && [before] + [ev] == [before, ev];
    NestedRegisters(scan, row, DocumentOf(e), ev);
    ClosedOnUsedConnection([before], scan, row, DocumentOf(e), ev);
    OnlyOneBefore(before, context, s.batchIndex, s.batch);
  }

  lemma OneColumn(e: Expr, c: Expr)
    requires Columns(e) == [c]
    ensures OneNamePerIndex(e)
  {
    hide Columns;
  }

  /** What an evaluation of the scan's expression registers. */
  lemma NestedRegisters(scan: Scan, row: OneRow, raw: Json, ev: Evaluation)
    requires Elaborate(scan, row, raw, true) == Some(ev.e) && Rendered(ev.e).Some? && RelationsOf(ev.e, ev.batch).Some?
    ensures forall k :: k in Registering(ev) <==> k in Visible(ev.e)
  {
    hide Elaborate, Rendered, RelationsOf, KeyBatches, Visible, Visited, Refers;
    AllFromDocument(scan, row, raw);
    forall k: nat ensures k in Registering(ev) <==> k in Visible(ev.e) {
      KeysBoundExactly(scan, row, ev.e, k);
    }
  }

  lemma OnlyOneBefore(before: Evaluation, context: Context, k: nat, batch: KeyBatch)
    requires before.context == context && k in Registering(before)
    ensures LastRegisteredAs([before], context, k, batch) <==> Registering(before)[k] == batch
  {
    hide Registering;
    assert LastToRegister([before], 0, context, k);
  }

  // ---- One column index under two names --------------------------------------------------------

  lemma VisitedEqual(c: Expr, d: Expr)
    requires c.ColumnRef? && d.ColumnRef?
    ensures Visited(Everywhere, Comparison(Eq, c, d)) == [c, d, Comparison(Eq, c, d)]
  {
    var e := Comparison(Eq, c, d);
    VisitedNode(Everywhere, e);
    VisitedNode(Everywhere, c);
    VisitedNode(Everywhere, d);
    VisitedStep(Everywhere, e, Kids(e), 0);
    VisitedStep(Everywhere, e, Kids(e), 1);
    hide Visited, VisitedAll;
    assert Kids(e)[..2] == Kids(e) && Kids(c) == [] && Kids(d) == [];
  }

  lemma ColumnsOfEqual(c: Expr, d: Expr)
    requires c.ColumnRef? && d.ColumnRef?
    ensures var e := Comparison(Eq, c, d); Columns(e) == [c, d] && Rendered(e).Some?
  {
    hide Collect, Visited;
    var e := Comparison(Eq, c, d);
    VisitedEqual(c, d);
    CollectOfConcat(OwnColumn, [c] + [d], [e]);
    CollectOfConcat(OwnColumn, [c], [d]);
    CollectOfOne(OwnColumn, c);
    CollectOfOne(OwnColumn, d);
    CollectOfOne(OwnColumn, e);
    assert [c] + [d] + [e] == [c, d, e];
    NothingRefused(e);
  }

  lemma EqualIsAccepted(scan: Scan, row: OneRow, context: Context, reading: Reading, a: string, b: string)
    requires scan.outputSchema.None? && a != "" && b != ""
    ensures Accepts(scan, context, row, reading, Comparison(Eq, ColumnRef(0, a, None), ColumnRef(0, b, None)))
  {
    hide Elaborate, ApplySnapshot, DocumentOf, SnapshotDoc, Accepts;
    var c, d := ColumnRef(0, a, None), ColumnRef(0, b, None);
    var e := Comparison(Eq, c, d);
    assert Belongs(scan, row, c) && Belongs(scan, row, d) && Kids(e) == [c, d];
    assert WellTyped(c, false) && WellTyped(d, false);
    assert Height(c) == 1 && Size(c) == 1 && Height(d) == 1 && Size(d) == 1;
    assert !RequiresSession(c) && !RequiresSession(d);
    IsAccepted(scan, context, row, reading, e);
  }

  /**
   For every scan without a known output schema and every batch of two differently named columns: a snapshot that
   compares index 0 under one name with index 0 under the other is accepted and rendered, and some name is unbound.
   */
  lemma TwoNamesAreUnbound(scan: Scan, row: OneRow, context: Context, reading: Reading, a: Field, b: Field)
    requires scan.outputSchema.None? && a.name != b.name && a.name != "" && b.name != ""
    ensures var e := Comparison(Eq, ColumnRef(0, a.name, None), ColumnRef(0, b.name, None));
            && Accepts(scan, context, row, reading, e)
            && Rendered(e).Some? && RelationsOf(e, [a, b]).Some?
            && exists m <- Rendered(e).value :: !BoundIn(m, RelationsOf(e, [a, b]).value, [a, b])
  {
    hide Elaborate, Rendered, RelationsOf, BoundIn, Hidden, Visible, Columns, ApplySnapshot, InitialState, SnapshotDoc;
    hide DocumentOf;
    var c, d := ColumnRef(0, a.name, None), ColumnRef(0, b.name, None);
    EqualIsAccepted(scan, row, context, reading, a.name, b.name);
    ColumnsOfEqual(c, d);
    var e := Comparison(Eq, c, d);
    var batch := [a, b];
    FoundSecond(a, b);
    assert Available(batch, c) && Available(batch, d);
    ColumnsAreAvailable(e, batch);
    EvaluationIsClosed(scan, row, DocumentOf(e), batch);
    assert c in Columns(e) && d in Columns(e);
  }

  lemma FoundSecond(a: Field, b: Field)
    requires a.name != b.name
    ensures Find([a, b], b.name) == Some(1)
  {
    FindSpec([a, b], b.name);
    assert UniqueAt([a, b], b.name, 1);
  }
}
