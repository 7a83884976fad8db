/**
 Many evaluations on one thread: a connection is kept per evaluation context, and a key batch once registered
 on it stays under its name until another is registered there. So a name that an evaluation leaves unregistered
 may still stand for the keys of an earlier one.
 */
module FilterConnection {
  import opened Common
  import opened Arrow
  import opened FilterModel
  import opened FilterParser
  import opened FilterDocument
  import opened FilterEvaluation
  import opened FilterClosure

  datatype Evaluation = Evaluation(context: Context, e: Expr, batch: seq<Field>)

  /** The key batches registered on the connection of each context. */
  type Registered = map<Context, map<nat, KeyBatch>>

  function KeysOn(registered: Registered, context: Context): map<nat, KeyBatch> {
    if context in registered then registered[context] else map[]
  }

  /** What an evaluation that finds its columns registers, whether or not it can then be rendered. */
  function Registering(ev: Evaluation): map<nat, KeyBatch> {
    if RelationsOf(ev.e, ev.batch).Some? then KeyBatches(ev.e) else map[]
  }

  function AfterOne(registered: Registered, ev: Evaluation): Registered {
    registered[ev.context := KeysOn(registered, ev.context) + Registering(ev)]
  }

  /** The connections of a thread after the evaluations it was asked for. */
  function AfterAll(evs: seq<Evaluation>): Registered {
    if evs == [] then map[] else AfterOne(AfterAll(evs[..|evs| - 1]), evs[|evs| - 1])
  }

  /** What the query of an evaluation is run against, given the key batches on its connection. */
  function Seen(ev: Evaluation, keys: map<nat, KeyBatch>): Option<Relations> {
    if RelationsOf(ev.e, ev.batch).None? || Rendered(ev.e).None? then None
    else Some(RelationsOf(ev.e, ev.batch).value.(keys := keys))
  }

  /** `_evaluation_local`. */
  class EvaluationThread {
    var registered: Registered

    constructor ()
      ensures registered == map[]
    {
      registered := map[];
    }

    /** `_evaluate_expression` up to the query: the relations it is run against, or None where it raises before. */
    method Evaluate(ev: Evaluation) returns (r: Option<Relations>)
      modifies this
      ensures registered == AfterOne(old(registered), ev)
      ensures r == Seen(ev, registered[ev.context])
    {
      hide KeyBatches, Rendered, RelationsOf;
      if ev.context !in registered {
        registered := registered[ev.context := map[]];
      }
      ghost var before := registered[ev.context];
      var built := BuildRelations(ev.e, ev.batch);
      if built.None? {
        assert before + map[] == before;
        return None;
      }
      var keys := built.value.keys;
      BuiltKeys(ev);
      var todo := keys.Keys;
      while todo != {}
        invariant todo <= keys.Keys && ev.context in registered
        invariant registered == old(registered)[ev.context := registered[ev.context]]
        invariant registered[ev.context] == before + map k | k in keys && k !in todo :: keys[k]
      {
        var k :| k in todo;
        registered := registered[ev.context := registered[ev.context][k := keys[k]]];
        todo := todo - {k};
      }
      assert registered[ev.context] == before + keys;
      if Rendered(ev.e).None? {
        return None;
      }
      return Some(built.value.(keys := registered[ev.context]));
    }
  }

  lemma BuiltKeys(ev: Evaluation)
    requires RelationsOf(ev.e, ev.batch).Some?
    ensures RelationsOf(ev.e, ev.batch).value.keys == KeyBatches(ev.e)
  {
    hide Columns, AddFresh, Available, Cells, KeyBatches;
  }

  // ---- The last evaluation to register a batch -------------------------------------------------

  predicate Registers(ev: Evaluation, context: Context, k: nat) { ev.context == context && k in Registering(ev) }

  /** The evaluation at `i` is the last on this connection to register the key batch `k`. */
  predicate LastToRegister(evs: seq<Evaluation>, i: int, context: Context, k: nat) {
    && 0 <= i < |evs| && Registers(evs[i], context, k)
    && forall j :: i < j < |evs| ==> !Registers(evs[j], context, k)
  }

  /** The name of a key batch stands for what the last evaluation to register it registered. */
  lemma {:induction false} RegisteredLast(evs: seq<Evaluation>, context: Context, k: nat)
    ensures var keys := KeysOn(AfterAll(evs), context);
            && (k in keys <==> exists i :: LastToRegister(evs, i, context, k))
            && (forall i :: LastToRegister(evs, i, context, k) ==> k in keys && keys[k] == Registering(evs[i])[k])
  {
    hide Registering;
    if evs != [] {
      var n := |evs| - 1;
      RegisteredLast(evs[..n], context, k);
      if Registers(evs[n], context, k) {
        assert LastToRegister(evs, n, context, k);
      } else {
        forall i ensures LastToRegister(evs, i, context, k) <==> LastToRegister(evs[..n], i, context, k) {
          assert forall j :: 0 <= j < n ==> evs[..n][j] == evs[j];
        }
      }
    }
  }

  // ---- What the names of an evaluation stand for -----------------------------------------------

  /** The last earlier evaluation on this connection to register the key batch registered this very one. */
  ghost predicate LastRegisteredAs(evs: seq<Evaluation>, context: Context, k: nat, batch: KeyBatch) {
    exists i :: LastToRegister(evs, i, context, k) && Registering(evs[i])[k] == batch
  }

  lemma OtherNamesAreUnaffected(m: Mention, r: Relations, keys: map<nat, KeyBatch>, batch: seq<Field>)
    requires !m.KeysMention?
    ensures BoundIn(m, r.(keys := keys), batch) <==> BoundIn(m, r, batch)
  {
    var s := r.(keys := keys);
    assert forall name, k: nat :: OnlyInput(s, name, k) <==> OnlyInput(r, name, k);
    assert forall name, k: nat :: OnlyPayload(s, name, k) <==> OnlyPayload(r, name, k);
  }

  /**
   After any earlier evaluations, of this scan or others: a mentioned key batch is the node's own exactly when
   the key traversal meets its index, or the last evaluation to register the index registered that batch.
   */
  lemma KeyMentionResolvesExactly(evs: seq<Evaluation>, scan: Scan, row: OneRow, ev: Evaluation, m: Mention)
    requires Seen(ev, KeysOn(AfterAll(evs), ev.context)).Some?
    requires forall x <- Visited(Everywhere, ev.e) :: Refers(scan, row, x) && !x.RuntimeFilter?
    requires m.KeysMention? && m in Rendered(ev.e).value
    ensures BoundIn(m, Seen(ev, KeysOn(AfterAll(evs + [ev]), ev.context)).value, ev.batch)
            <==> m.batchIndex in Visible(ev.e) || LastRegisteredAs(evs, ev.context, m.batchIndex, m.batch)
  {
    hide Visited, Rendered, RelationsOf, KeyBatches, Visible, AfterAll, Refers, LastToRegister;
    OneMoreEvaluation(evs, ev);
    RegisteredLast(evs, ev.context, m.batchIndex);
    KeysBoundExactly(scan, row, ev.e, m.batchIndex);
    OwnBatch(scan, row, ev.e, m);
  }

  lemma OneMoreEvaluation(evs: seq<Evaluation>, ev: Evaluation)
    ensures KeysOn(AfterAll(evs + [ev]), ev.context) == KeysOn(AfterAll(evs), ev.context) + Registering(ev)
  {
    hide Registering;
    assert (evs + [ev])[..|evs|] == evs;
  }

  lemma OwnBatch(scan: Scan, row: OneRow, e: Expr, m: Mention)
    requires forall x <- Visited(Everywhere, e) :: Refers(scan, row, x) && !x.RuntimeFilter?
    requires Rendered(e).Some? && m.KeysMention? && m in Rendered(e).value
    ensures m.batchIndex < |scan.joinKeys| && m.batch == scan.joinKeys[m.batchIndex]
    ensures m.batchIndex in External(Visited(Everywhere, e))
  {
    hide Visited, Rendered;
    MentionsOfNodes(e, m);
    var n :| n in Visited(Everywhere, e) && m in OwnMention(n);
    assert Refers(scan, row, n);
  }

  /**
   For every expression the parser accepts and the renderer renders, on a connection used before in any way:
   all mentioned names stand for their nodes' own values exactly when no column index goes by two names and
   each key batch the traversal misses was last registered as the scan's own.
   */
  lemma ClosedOnUsedConnection(evs: seq<Evaluation>, scan: Scan, row: OneRow, raw: Json, ev: Evaluation)
    requires Elaborate(scan, row, raw, true) == Some(ev.e)
    requires Seen(ev, KeysOn(AfterAll(evs), ev.context)).Some?
    ensures forall k :: k in Hidden(ev.e) ==> k < |scan.joinKeys|
    ensures (forall m <- Rendered(ev.e).value ::
               BoundIn(m, Seen(ev, KeysOn(AfterAll(evs + [ev]), ev.context)).value, ev.batch))
            <==> && OneNamePerIndex(ev.e)
                 && forall k :: k in Hidden(ev.e) && k !in Visible(ev.e) ==>
                      LastRegisteredAs(evs, ev.context, k, scan.joinKeys[k])
  {
    hide Elaborate, Visited, Rendered, RelationsOf, KeyBatches, Visible, Hidden, AfterAll, Refers,
      LastRegisteredAs;
    hide Columns, BoundIn;
    var keys := KeysOn(AfterAll(evs + [ev]), ev.context);
    AllFromDocument(scan, row, raw);
    HiddenInScan(scan, row, ev.e);
    if OneNamePerIndex(ev.e) {
      forall m | m in Rendered(ev.e).value
        ensures BoundIn(m, Seen(ev, keys).value, ev.batch)
                <==> (m.KeysMention? ==> m.batchIndex in Visible(ev.e)
                                         || LastRegisteredAs(evs, ev.context, m.batchIndex, m.batch))
      {
        if m.KeysMention? {
          KeyMentionResolvesExactly(evs, scan, row, ev, m);
        } else {
          NamesAreBound(scan, row, ev.e, ev.batch, m);
          OtherNamesAreUnaffected(m, RelationsOf(ev.e, ev.batch).value, keys, ev.batch);
        }
      }
      KeysAreMentioned(scan, row, ev.e);
    } else {
      var m := SomeAmbiguous(ev.e, ev.batch);
      OtherNamesAreUnaffected(m, RelationsOf(ev.e, ev.batch).value, keys, ev.batch);
    }
  }

  lemma SomeAmbiguous(e: Expr, batch: seq<Field>) returns (m: Mention)
    requires RelationsOf(e, batch).Some? && Rendered(e).Some? && !OneNamePerIndex(e)
    ensures m in Rendered(e).value && !m.KeysMention? && !BoundIn(m, RelationsOf(e, batch).value, batch)
  {
    hide Visited, Rendered, RelationsOf, Columns, BoundIn;
    var c, d :| c in Columns(e) && d in Columns(e) && c.ColumnRef? && d.ColumnRef?
                && c.columnIndex == d.columnIndex && c.columnName != d.columnName;
    AmbiguousColumn(e, batch, c, d);
    ColumnOccurs(e, c);
    m := ColumnMention(c);
    MentionsOfNodes(e, m);
    assert m in OwnMention(c);
  }

  /** Columns and payload values are registered anew by every evaluation. */
  lemma NamesAreBound(scan: Scan, row: OneRow, e: Expr, batch: seq<Field>, m: Mention)
    requires Rendered(e).Some? && RelationsOf(e, batch).Some? && m in Rendered(e).value && !m.KeysMention?
    requires forall x <- Visited(Everywhere, e) :: Refers(scan, row, x) && !x.RuntimeFilter?
    requires OneNamePerIndex(e)
    ensures BoundIn(m, RelationsOf(e, batch).value, batch)
  {
    hide Visited, Rendered, Columns, RelationsOf, BoundIn, Refers;
    MentionsOfNodes(e, m);
    var n :| n in Visited(Everywhere, e) && m in OwnMention(n);
    if OwnCell(n) != [] {
      PayloadIsBound(scan, row, e, batch, n);
    } else {
      ColumnOccurs(e, n);
      ColumnIsBound(e, batch, n);
    }
  }

  lemma HiddenInScan(scan: Scan, row: OneRow, e: Expr)
    requires forall x <- Visited(Everywhere, e) :: Refers(scan, row, x) && !x.RuntimeFilter?
    ensures forall k :: k in External(Visited(Everywhere, e)) ==> k < |scan.joinKeys|
    ensures Hidden(e) <= External(Visited(Everywhere, e)) == Visible(e) + Hidden(e)
  {
    hide Visited, Hidden, Visible;
    ExternalIsVisibleOrHidden(e);
    forall k | k in External(Visited(Everywhere, e)) ensures k < |scan.joinKeys| {
      var n :| n in Visited(Everywhere, e) && IsExternalIn(n) && n.set_.batchIndex == k;
      assert Refers(scan, row, n);
    }
  }

  /** Every key batch of a node is mentioned as the scan's own, and no other is. */
  lemma KeysAreMentioned(scan: Scan, row: OneRow, e: Expr)
    requires Rendered(e).Some?
    requires forall x <- Visited(Everywhere, e) :: Refers(scan, row, x) && !x.RuntimeFilter?
    ensures forall k :: k in External(Visited(Everywhere, e)) ==>
              k < |scan.joinKeys| && exists m <- Rendered(e).value ::
                m.KeysMention? && m.batchIndex == k && m.batch == scan.joinKeys[k]
    ensures forall m <- Rendered(e).value :: m.KeysMention? ==>
              && m.batchIndex in External(Visited(Everywhere, e)) && m.batchIndex < |scan.joinKeys|
              && m.batch == scan.joinKeys[m.batchIndex]
  {
    hide Visited, Rendered;
    HiddenInScan(scan, row, e);
    forall k | k in External(Visited(Everywhere, e))
      ensures exists m <- Rendered(e).value :: m.KeysMention? && m.batchIndex == k && m.batch == scan.joinKeys[k]
    {
      var n :| n in Visited(Everywhere, e) && IsExternalIn(n) && n.set_.batchIndex == k;
      var m := KeysMention(k, n.set_.columnName, n.set_.batch);
      assert Refers(scan, row, n) && m in OwnMention(n);
      MentionsOfNodes(e, m);
    }
    forall m | m in Rendered(e).value && m.KeysMention?
      ensures m.batchIndex in External(Visited(Everywhere, e)) && m.batchIndex < |scan.joinKeys|
      ensures m.batch == scan.joinKeys[m.batchIndex]
    {
      OwnBatch(scan, row, e, m);
    }
  }
}
