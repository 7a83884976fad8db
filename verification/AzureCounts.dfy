/**
 What deletes and clears answer: the Azure store counts tombstones too, and a call repeated after a lost commit
 counts what is left rather than what it removed. Exactly when is the answer still the plain store's?
 */
module AzureCounts {
  import opened Common
  import opened Bytes
  import opened Storage
  import opened StorageRuns
  import opened ShardedStorage
  import opened AzureStorage
  import opened AzureRetry
  import opened AzureRefinement
  import opened AzureFaultyRuns

  // ---- Nothing left to remove ------------------------------------------------------------------

  /** Neither a row nor a tombstone is left under the call, and under a clear no log entry or counter. */
  ghost predicate Bare(db: Database, op: Op)
    requires Counts(op)
  {
    && (forall at <- db.state.Keys :: !Removes(op, at))
    && (op.ClearScope? ==>
          && (forall i :: 0 <= i < |db.log| ==> db.log[i].row.owner.scope != op.scope)
          && (forall at <- db.counters.Keys :: at.scope != op.scope))
  }

  lemma RemovingLeavesBare(db: Database, op: Op, attempt: Attempt)
    requires Counts(op) && !Refused(op)
    ensures Bare(Do(db, op, attempt).0, op)
  {
    hide Where, Deletes;
    if op.ClearScope? {
      WhereSelects(db.log, LoggedOutOf(op.scope));
    }
  }

  lemma BareCountsNothing(db: Database, op: Op, attempt: Attempt)
    requires Counts(op) && !Refused(op) && Bare(db, op)
    ensures Do(db, op, attempt) == (db, Count(0))
  {
    hide Where, Deletes;
    if op.ClearScope? {
      WhereAll(db.log, LoggedOutOf(op.scope));
      assert OutsideScope(db.state, op.scope) == db.state && OutsideScope(db.counters, op.scope) == db.counters;
    } else {
      assert (map at <- db.state.Keys | !Deletes(op.scope, op.ns, op.only, op.range, at) :: db.state[at]) == db.state;
    }
  }

  /** The other call writes something the delete or clear would remove. */
  predicate Fills(op: Op, other: Op)
    requires Counts(op)
  {
    match other
    case PutMany(scope, ns, pairs) => exists p <- pairs :: Removes(op, RowKey(scope, ns, p.key))
    case Append(at, _) => op.ClearScope? && at.scope == op.scope
    case CounterAdd(at, _) => op.ClearScope? && at.scope == op.scope
    case CounterSet(at, _) => op.ClearScope? && at.scope == op.scope
    case _ => false
  }

  lemma PutStaysBare(db: Database, op: Op, other: Op, attempt: Attempt)
    requires Counts(op) && other.PutMany? && Bare(db, op) && !Fills(op, other)
    ensures Bare(Do(db, other, attempt).0, op)
  {
    hide PutRows, Removes;
    var after := PutRows(db.state, other.scope, other.ns, other.pairs, attempt);
    forall at | at in after ensures !Removes(op, at) {
      PutRowsAt(db.state, other.scope, other.ns, other.pairs, attempt, at);
    }
  }

  lemma ClearStaysBare(db: Database, op: Op, scope: Bytes, attempt: Attempt)
    requires Counts(op) && Bare(db, op)
    ensures Bare(Do(db, ClearScope(scope), attempt).0, op)
  {
    hide Removes, Where;
    WhereSelects(db.log, LoggedOutOf(scope));
  }

  /** Drains, deletes and reads leave no row behind that was not there. */
  lemma RemovalStaysBare(db: Database, op: Op, other: Op, attempt: Attempt)
    requires Counts(op) && Supported(other) && Bare(db, op)
    requires !other.PutMany? && !other.ClearScope? && !other.Append? && !other.CounterAdd? && !other.CounterSet?
    ensures Bare(Do(db, other, attempt).0, op)
  {
    hide Removes, ScanOf, Deletes, TakenBy, Namespace, Live, GetOf, RowsOf, EntriesAfter, CountOf;
    var after := Do(db, other, attempt).0;
    assert after.state.Keys <= db.state.Keys && after.counters.Keys <= db.counters.Keys && after.log == db.log;
  }

  lemma AppendStaysBare(db: Database, op: Op, at: RowKey, item: Bytes, attempt: Attempt)
    requires Counts(op) && Bare(db, op) && !Fills(op, Append(at, item))
    ensures Bare(Do(db, Append(at, item), attempt).0, op)
  {
    hide Removes, OrdinalOf;
  }

  lemma CounterStaysBare(db: Database, op: Op, other: Op, attempt: Attempt)
    requires Counts(op) && Bare(db, op) && (other.CounterAdd? || other.CounterSet?) && !Fills(op, other)
    ensures Bare(Do(db, other, attempt).0, op)
  {
    hide Removes, CountOf, Landed;
  }

  lemma StaysBare(db: Database, op: Op, other: Op, attempt: Attempt)
    requires Counts(op) && Supported(other) && Bare(db, op) && !Fills(op, other)
    ensures Bare(Do(db, other, attempt).0, op)
  {
    hide Bare, Do, Fills;
    if other.PutMany? {
      PutStaysBare(db, op, other, attempt);
    } else if other.ClearScope? {
      ClearStaysBare(db, op, other.scope, attempt);
    } else if other.Append? {
      AppendStaysBare(db, op, other.at, other.item, attempt);
    } else if other.CounterAdd? || other.CounterSet? {
      CounterStaysBare(db, op, other, attempt);
    } else {
      RemovalStaysBare(db, op, other, attempt);
    }
  }

  lemma LeftStaysBare(db: Database, op: Op, c: Try)
    requires Counts(op) && Supported(c.op) && Bare(db, op) && !Fills(op, c.op)
    ensures Bare(Left(db, c.op, c.attempt, c.fault), op)
  {
    hide Do, Removes, Fills;
    StaysBare(db, op, c.op, c.attempt);
  }

  /** Nothing the call would remove is written after the attempt at `i`. */
  predicate NotRefilled(tries: seq<Try>, i: nat, op: Op)
    requires Counts(op)
  {
    forall j :: i < j < |tries| ==> !Fills(op, tries[j].op)
  }

  lemma {:induction false} BareUntilRefilled(tries: seq<Try>, i: nat, op: Op)
    requires TriesSupported(tries) && i < |tries| && Counts(op) && NotRefilled(tries, i, op)
    requires Bare(TryRun(tries[..i + 1]), op)
    ensures Bare(TryRun(tries), op)
    decreases |tries|
  {
    hide Bare, Fills, Left;
    var k := |tries| - 1;
    if i == k {
      assert tries[..i + 1] == tries;
    } else {
      assert tries[..k][..i + 1] == tries[..i + 1];
      BareUntilRefilled(tries[..k], i, op);
      LeftStaysBare(TryRun(tries[..k]), op, tries[k]);
    }
  }

  // ---- Exactly when the count is the plain store's ---------------------------------------------

  /** The plain store's answer to a call made after these attempts. */
  ghost function PlainAnswer(tries: seq<Try>, op: Op): Reply
    requires TriesSupported(tries)
  {
    Step(Run(Effects(tries)), op).1
  }

  /** Every attempt under the id that committed, if there is one, is the one at `i`. */
  predicate FirstToLand(tries: seq<Try>, i: nat, id: Attempt) {
    && i <= |tries|
    && (i < |tries| ==> tries[i].attempt == id && Commits(tries[i].fault))
    && (forall j :: 0 <= j < |tries| && tries[j].attempt == id && Commits(tries[j].fault) ==> j == i)
  }

  /**
   A delete or clear that returns, `i` being the point where it was first committed: if that was this attempt,
   the count is the plain store's exactly when no tombstone falls under the call; if the first commit's answer
   was lost and nothing has been written under the call since, exactly when there was nothing to count.
   */
  lemma CountIsThePlainStoresExactlyWhen(tries: seq<Try>, c: Try, i: nat)
    requires Orderly(tries + [c]) && c.fault.NoFault? && Counts(c.op) && !Refused(c.op)
    requires FirstToLand(tries, i, c.attempt) && NotRefilled(tries, i, c.op)
    ensures TriesSupported(tries) && TriesSupported(tries[..i]) && Supported(c.op)
    ensures var answer := PlainAnswer(tries[..i], c.op);
            Do(TryRun(tries), c.op, c.attempt).1 == answer
            <==> if i < |tries| then answer == Count(0)
                 else forall at <- TryRun(tries).state.Keys | TryRun(tries).state[at].drainedBy.Some? ::
                     !Removes(c.op, at)
  {
    hide Do, Removes, Refused, Supported, LeftAlone, Fills, Bare, PlainAnswer;
    assert (tries + [c])[..|tries|] == tries && (tries + [c])[|tries|] == c;
    if i < |tries| {
      LostCountIsZero(tries, c, i);
    } else {
      assert tries[..i] == tries;
      CountedWithTombstones(tries, c);
      CountIsExactWithoutTombstones(TryRun(tries), c.op);
    }
  }

  /** The answer to the second attempt of a call whose commit was lost. */
  lemma LostCountIsZero(tries: seq<Try>, c: Try, i: nat)
    requires Orderly(tries + [c]) && TriesSupported(tries) && Supported(c.op) && Counts(c.op) && !Refused(c.op)
    requires i < |tries| && tries[i].attempt == c.attempt && Commits(tries[i].fault) && NotRefilled(tries, i, c.op)
    ensures Do(TryRun(tries), c.op, c.attempt) == (TryRun(tries), Count(0))
  {
    hide Do, Removes, Refused, Supported, LeftAlone, Bare, Fills;
    assert (tries + [c])[..|tries|] == tries && (tries + [c])[|tries|] == c;
    var upto := tries[..i + 1];
    assert upto[..i] == tries[..i] && upto[i] == tries[i];
    RemovingLeavesBare(TryRun(tries[..i]), c.op, c.attempt);
    BareUntilRefilled(tries, i, c.op);
    BareCountsNothing(TryRun(tries), c.op, c.attempt);
  }

  /** The answer of an attempt that is the first to land: tombstones count. */
  lemma CountedWithTombstones(tries: seq<Try>, c: Try)
    requires Orderly(tries + [c]) && Commits(c.fault) && TriesSupported(tries) && Supported(c.op)
    requires Counts(c.op) && !Refused(c.op)
    ensures PlainAnswer(tries, c.op).Count?
    ensures Do(TryRun(tries), c.op, c.attempt).1
            == Count(PlainAnswer(tries, c.op).count + TombstonesRemoved(TryRun(tries), c.op))
  {
    hide Do, Step, Supported, TryRun, Effects, OrdinalsOf, TombstonesRemoved, Removes, Simulates, Refused, Plain;
    assert Effective(tries, c);
    var i := TriesAnswerAsThePlainStore(tries, c);
    assert tries[..i] == tries;
    RemovalIsCounted(Run(Effects(tries)), c.op);
  }

  lemma RemovalIsCounted(t: Tables, op: Op)
    requires Counts(op) && !Refused(op)
    ensures Step(t, op).1.Count?
  {
    hide Where, Deletes;
  }

  // ---- Where it is not -------------------------------------------------------------------------

  /** A single row written and drained: the clear of its scope counts one row where the plain store counts none. */
  lemma DrainedRowIsCounted(at: RowKey, v: Bytes)
    ensures var calls := [Issued(PutMany(at.scope, at.ns, [Pair(at.key, v)]), 0), Issued(Drain(at.scope, at.ns), 1)];
            && Do(AzureRun(calls), ClearScope(at.scope), 2).1 == Count(1)
            && Step(Run(OpsOf(calls)), ClearScope(at.scope)).1 == Count(0)
  {
    var put, drain := Issued(PutMany(at.scope, at.ns, [Pair(at.key, v)]), 0), Issued(Drain(at.scope, at.ns), 1);
    OnePutRun(at, v);
    assert [put, drain][..1] == [put] && OpsOf([put, drain])[..1] == OpsOf([put]);
    DrainOfOne(at, v);
    ClearOfOne(at, StateRow(v, 0, Some(1)), 2);
    PlainClearOfOne(at, v);
  }

  /** The run's one row. */
  lemma OnePutRun(at: RowKey, v: Bytes)
    ensures var calls := [Issued(PutMany(at.scope, at.ns, [Pair(at.key, v)]), 0)];
            && AzureRun(calls) == Database(map[at := StateRow(v, 0, None)], [], 0, map[])
            && Run(OpsOf(calls)) == NO_TABLES.(state := map[at := v])
  {
    var p := Pair(at.key, v);
    var calls := [Issued(PutMany(at.scope, at.ns, [p]), 0)];
    assert calls[..0] == [] && [p][..0] == [];
    assert OpsOf(calls) == [PutMany(at.scope, at.ns, [p])];
    assert RowKey(at.scope, at.ns, at.key) == at;
    assert PutRows(map[], at.scope, at.ns, [], 0) == map[] && PutAll(map[], at.scope, at.ns, []) == map[];
  }

  lemma DrainOfOne(at: RowKey, v: Bytes)
    ensures var live := Database(map[at := StateRow(v, 0, None)], [], 0, map[]);
            Do(live, Drain(at.scope, at.ns), 1).0 == Database(map[at := StateRow(v, 0, Some(1))], [], 0, map[])
    ensures Step(NO_TABLES.(state := map[at := v]), Drain(at.scope, at.ns)).0 == NO_TABLES
  {
    var rows := map[at := StateRow(v, 0, None)];
    assert TakenBy(rows, at.scope, at.ns, 1) == map[];
    assert Tombstoned(rows, at.scope, at.ns, 1) == map[at := StateRow(v, 0, Some(1))];
  }

  lemma ClearOfOne(at: RowKey, row: StateRow, attempt: Attempt)
    ensures Do(Database(map[at := row], [], 0, map[]), ClearScope(at.scope), attempt) == (EMPTY, Count(1))
  {
    assert OutsideScope(map[at := row], at.scope) == map[];
  }

  lemma PlainClearOfOne(at: RowKey, v: Bytes)
    ensures Step(NO_TABLES.(state := map[at := v]), ClearScope(at.scope)).1 == Count(1)
    ensures Step(NO_TABLES, ClearScope(at.scope)).1 == Count(0)
  {
    assert OutsideScope(map[at := v], at.scope) == map[];
  }

  /** A single row written, its scope cleared and the answer lost: the repeated clear counts none. */
  lemma LostClearIsNotCounted(at: RowKey, v: Bytes)
    ensures var calls := [Issued(PutMany(at.scope, at.ns, [Pair(at.key, v)]), 0)];
            && Retried(AzureRun(calls), ClearScope(at.scope), 1, ConnectionLost(true, 0), db => db, NoFault).1
               == Returned(Count(0))
            && Step(Run(OpsOf(calls)), ClearScope(at.scope)).1 == Count(1)
  {
    OnePutRun(at, v);
    ClearOfOne(at, StateRow(v, 0, None), 1);
    BareCountsNothing(EMPTY, ClearScope(at.scope), 1);
    PlainClearOfOne(at, v);
  }
}
