/**
 Tombstones and attempt ids are invisible: the live rows of the Azure store are the rows of the plain
 SQLite store, and its answers are the same but for what deletes count.
 */
module AzureRefinement {
  import opened Common
  import opened Bytes
  import opened Storage
  import opened StorageRuns
  import opened AzureStorage
  import opened AzureRetry

  function Numbers(counters: map<RowKey, CounterRow>): map<RowKey, int> { map at <- counters.Keys :: counters[at].n }

  /** The tables a plain store would hold. */
  function Plain(db: Database): Tables {
    Tables(Live(db.state), RowsOf(db.log), db.lastId, [], 0, Numbers(db.counters))
  }

  /** The tombstones of a table. */
  function Dead(state: map<RowKey, StateRow>): map<RowKey, Bytes> {
    map at <- state.Keys | state[at].drainedBy.Some? :: state[at].value
  }

  // ---- Key-value rows --------------------------------------------------------------------------

  lemma {:induction false} LiveOfPut(state: map<RowKey, StateRow>, scope: Bytes, ns: Bytes, pairs: seq<Pair>,
                                     attempt: Attempt)
    ensures Live(PutRows(state, scope, ns, pairs, attempt)) == PutAll(Live(state), scope, ns, pairs)
  {
    if pairs != [] {
      LiveOfPut(state, scope, ns, pairs[..|pairs| - 1], attempt);
    }
  }

  lemma LiveOfTombstoned(state: map<RowKey, StateRow>, scope: Bytes, ns: Bytes, attempt: Attempt)
    ensures Live(Tombstoned(state, scope, ns, attempt))
            == map at <- Live(state).Keys | !(at.scope == scope && at.ns == ns) :: Live(state)[at]
  {
  }

  lemma {:induction false} LiveAndDead(state: map<RowKey, StateRow>)
    ensures |Live(state)| + |Dead(state)| == |state|
  {
    var live, dead := Live(state).Keys, Dead(state).Keys;
    assert live !! dead && live + dead == state.Keys;
    assert |live| == |Live(state)| && |dead| == |Dead(state)| && |state.Keys| == |state|;
    assert |live + dead| == |live| + |dead|;
  }

  /** Removing rows removes live rows and tombstones. */
  lemma RemovedRows(state: map<RowKey, StateRow>, kept: map<RowKey, StateRow>)
    ensures |state| - |kept| == (|Live(state)| - |Live(kept)|) + (|Dead(state)| - |Dead(kept)|)
  {
    LiveAndDead(state);
    LiveAndDead(kept);
  }

  // ---- The log and the counters ----------------------------------------------------------------

  lemma {:induction false} RowsOfKept(log: seq<Logged>, scope: Bytes)
    ensures RowsOf(Where(log, LoggedOutOf(scope))) == Where(RowsOf(log), OutOf(scope))
  {
    if log != [] {
      var init, last := log[..|log| - 1], log[|log| - 1];
      RowsOfKept(init, scope);
      var rows := RowsOf(log);
      assert rows[..|rows| - 1] == RowsOf(init) && rows[|rows| - 1] == last.row;
    }
  }

  lemma NumbersOutside(counters: map<RowKey, CounterRow>, scope: Bytes)
    ensures Numbers(OutsideScope(counters, scope)) == OutsideScope(Numbers(counters), scope)
    ensures |Numbers(counters)| == |counters|
  {
    assert Numbers(counters).Keys == counters.Keys;
    assert |Numbers(counters).Keys| == |Numbers(counters)| && |counters.Keys| == |counters|;
  }

  // ---- One call --------------------------------------------------------------------------------

  /** The tombstones a delete or a clear removes, and counts. */
  function TombstonesRemoved(db: Database, op: Op): int
    requires Supported(op)
  {
    |Dead(db.state)| - |Dead(Do(db, op, 0).0.state)|
  }

  /** A fresh call does to the live rows, log and counters what it does to the plain store, and answers alike. */
  lemma DoRefinesStep(db: Database, op: Op, attempt: Attempt)
    requires Supported(op) && Fresh(db, attempt)
    ensures Plain(Do(db, op, attempt).0) == Step(Plain(db), op).0
    ensures !Counts(op) ==> Do(db, op, attempt).1 == Step(Plain(db), op).1
    ensures Counts(op) ==>
              match Step(Plain(db), op).1
              case Count(n) => Do(db, op, attempt).1 == Count(n + TombstonesRemoved(db, op))
              case other => Do(db, op, attempt).1 == other
  {
    match op
    case PutMany(scope, ns, pairs) => PutRefines(db, scope, ns, pairs, attempt);
    case Drain(scope, ns) => DrainRefines(db, scope, ns, attempt);
    case Delete(scope, ns, only, range) => DeleteRefines(db, op, attempt);
    case ClearScope(scope) => ClearRefines(db, scope, attempt);
    case Append(at, item) => AppendRefines(db, at, item, attempt);
    case CounterGet(at) => CounterRefines(db, op, attempt);
    case CounterAdd(at, delta) => CounterRefines(db, op, attempt);
    case CounterSet(at, value) => CounterRefines(db, op, attempt);
    case CounterDelete(at) => CounterRefines(db, op, attempt);
    case _ => ReadRefines(db, op, attempt);
  }

  lemma ReadRefines(db: Database, op: Op, attempt: Attempt)
    requires Supported(op) && (op.GetMany? || op.Scan? || op.LogScan?)
    ensures Do(db, op, attempt) == (db, Step(Plain(db), op).1) && Step(Plain(db), op).0 == Plain(db)
  {
    hide ScanOf, Live, EntriesAfter, RowsOf, GetOf, Numbers, Limited;
  }

  lemma PutRefines(db: Database, scope: Bytes, ns: Bytes, pairs: seq<Pair>, attempt: Attempt)
    requires Fresh(db, attempt)
    ensures var op := PutMany(scope, ns, pairs);
            Plain(Do(db, op, attempt).0) == Step(Plain(db), op).0 && Do(db, op, attempt).1 == Done
  {
    hide Live, RowsOf, Numbers, PutAll, PutRows;
    LiveOfPut(db.state, scope, ns, pairs, attempt);
  }

  lemma DrainRefines(db: Database, scope: Bytes, ns: Bytes, attempt: Attempt)
    requires Fresh(db, attempt)
    ensures var op := Drain(scope, ns);
            Plain(Do(db, op, attempt).0) == Step(Plain(db), op).0 && Do(db, op, attempt).1 == Step(Plain(db), op).1
  {
    hide Live, RowsOf, Numbers, Do, Tombstoned, Namespace, TakenBy;
    FreshDrain(db, scope, ns, attempt);
    LiveOfTombstoned(db.state, scope, ns, attempt);
  }

  lemma LiveOfKept(state: map<RowKey, StateRow>, scope: Bytes, ns: Bytes, only: Option<seq<Bytes>>, range: Range)
    ensures Live(map at <- state.Keys | !Deletes(scope, ns, only, range, at) :: state[at])
            == map at <- Live(state).Keys | !Deletes(scope, ns, only, range, at) :: Live(state)[at]
  {
    hide Deletes;
  }

  lemma DeleteRefines(db: Database, op: Op, attempt: Attempt)
    requires op.Delete?
    ensures Plain(Do(db, op, attempt).0) == Step(Plain(db), op).0
    ensures match Step(Plain(db), op).1
            case Count(n) => Do(db, op, attempt).1 == Count(n + TombstonesRemoved(db, op))
            case other => Do(db, op, attempt).1 == other
  {
    hide RowsOf, Numbers, Deletes, Live, Dead;
    LiveOfKept(db.state, op.scope, op.ns, op.only, op.range);
    RemovedRows(db.state, Do(db, op, attempt).0.state);
  }

  lemma ClearRefines(db: Database, scope: Bytes, attempt: Attempt)
    ensures var op := ClearScope(scope);
            && Plain(Do(db, op, attempt).0) == Step(Plain(db), op).0
            && Do(db, op, attempt).1 == Count(Step(Plain(db), op).1.count + TombstonesRemoved(db, op))
  {
    hide RowsOf, Numbers, Live, Dead, Where, OutsideScope;
    LiveOutside(db.state, scope);
    RemovedRows(db.state, OutsideScope(db.state, scope));
    RowsOfKept(db.log, scope);
    SameLengths(db.log);
    SameLengths(Where(db.log, LoggedOutOf(scope)));
    NumbersOutside(db.counters, scope);
    NumbersOutside(OutsideScope(db.counters, scope), scope);
  }

  lemma SameLengths(log: seq<Logged>)
    ensures |RowsOf(log)| == |log|
  {
  }

  lemma LiveOutside(state: map<RowKey, StateRow>, scope: Bytes)
    ensures Live(OutsideScope(state, scope)) == OutsideScope(Live(state), scope)
  {
  }

  lemma {:induction false} NotYetLogged(log: seq<Logged>, at: RowKey, attempt: Attempt)
    requires forall i :: 0 <= i < |log| ==> log[i].attempt != attempt
    ensures OrdinalOf(log, at, attempt).None?
  {
    if log != [] {
      NotYetLogged(log[1..], at, attempt);
    }
  }

  lemma AppendRefines(db: Database, at: RowKey, item: Bytes, attempt: Attempt)
    requires Fresh(db, attempt)
    ensures var op := Append(at, item);
            Plain(Do(db, op, attempt).0) == Step(Plain(db), op).0 && Do(db, op, attempt).1 == Step(Plain(db), op).1
  {
    hide Live, Numbers, OrdinalOf;
    NotYetLogged(db.log, at, attempt);
  }

  lemma NumbersFollow(counters: map<RowKey, CounterRow>, at: RowKey, row: CounterRow)
    ensures Numbers(counters[at := row]) == Numbers(counters)[at := row.n]
    ensures Numbers(counters - {at}) == Numbers(counters) - {at}
    ensures CounterOf(Numbers(counters), at) == CountOf(counters, at)
  {
  }

  lemma CounterRefines(db: Database, op: Op, attempt: Attempt)
    requires Fresh(db, attempt) && (op.CounterGet? || op.CounterAdd? || op.CounterSet? || op.CounterDelete?)
    ensures Plain(Do(db, op, attempt).0) == Step(Plain(db), op).0 && Do(db, op, attempt).1 == Step(Plain(db), op).1
  {
    hide Do, Step, Plain, Fresh;
    match op
    case CounterGet(at) => GetRefines(db, at, attempt);
    case CounterAdd(at, delta) => AddRefines(db, at, delta, attempt);
    case CounterSet(at, value) => SetRefines(db, at, value, attempt);
    case CounterDelete(at) => RemoveRefines(db, at, attempt);
  }

  lemma GetRefines(db: Database, at: RowKey, attempt: Attempt)
    ensures var op := CounterGet(at);
            Plain(Do(db, op, attempt).0) == Step(Plain(db), op).0 && Do(db, op, attempt).1 == Step(Plain(db), op).1
  {
    hide Live, RowsOf, Numbers, CounterOf, CountOf;
    NumbersFollow(db.counters, at, CounterRow(0, None));
  }

  lemma SetRefines(db: Database, at: RowKey, value: int, attempt: Attempt)
    ensures var op := CounterSet(at, value);
            Plain(Do(db, op, attempt).0) == Step(Plain(db), op).0 && Do(db, op, attempt).1 == Step(Plain(db), op).1
  {
    hide Live, RowsOf, Numbers, CounterOf, CountOf;
    NumbersFollow(db.counters, at, CounterRow(value, None));
  }

  lemma RemoveRefines(db: Database, at: RowKey, attempt: Attempt)
    ensures var op := CounterDelete(at);
            Plain(Do(db, op, attempt).0) == Step(Plain(db), op).0 && Do(db, op, attempt).1 == Step(Plain(db), op).1
  {
    hide Live, RowsOf, Numbers, CounterOf, CountOf;
    NumbersFollow(db.counters, at, CounterRow(0, None));
  }

  lemma AddRefines(db: Database, at: RowKey, delta: int, attempt: Attempt)
    requires Fresh(db, attempt)
    ensures var op := CounterAdd(at, delta);
            Plain(Do(db, op, attempt).0) == Step(Plain(db), op).0 && Do(db, op, attempt).1 == Step(Plain(db), op).1
  {
    hide Do, Step, Landed, Fresh, Live, RowsOf, Numbers, CounterOf, CountOf;
    NotAddedYet(db, at, delta, attempt);
    StepAdds(Plain(db), at, delta);
    var after := AfterAdd(db, at, delta, attempt);
    NumbersFollow(db.counters, at, CounterRow(CountOf(db.counters, at) + delta, Some(attempt)));
  }

  lemma StepAdds(t: Tables, at: RowKey, delta: int)
    ensures var n := CounterOf(t.counters, at) + delta;
            Step(t, CounterAdd(at, delta)) == (t.(counters := t.counters[at := n]), Number(n))
  {
    hide CounterOf;
  }

  lemma NotAddedYet(db: Database, at: RowKey, delta: int, attempt: Attempt)
    requires Fresh(db, attempt)
    ensures !Landed(db, CounterAdd(at, delta), attempt)
  {
  }

  /** An answer that counts what was removed. */
  predicate Counts(op: Op) { op.Delete? || op.ClearScope? }

  /** A delete may name keys or a range, not both. */
  predicate Refused(op: Op) { op.Delete? && op.only.Some? && (op.range.start.Some? || op.range.end.Some?) }

  /** The rows a delete or a clear removes. */
  predicate Removes(op: Op, at: RowKey)
    requires Counts(op)
  {
    if op.ClearScope? then at.scope == op.scope else Deletes(op.scope, op.ns, op.only, op.range, at)
  }

  /** A delete or a clear counts as the plain store does exactly when no tombstone falls under it. */
  lemma CountIsExactWithoutTombstones(db: Database, op: Op)
    requires Supported(op) && Counts(op) && !Refused(op)
    ensures TombstonesRemoved(db, op) == 0
            <==> forall at <- db.state.Keys | db.state[at].drainedBy.Some? :: !Removes(op, at)
  {
    hide Where, Deletes;
    var kept := Do(db, op, 0).0.state;
    var dead, left := Dead(db.state).Keys, Dead(kept).Keys;
    assert left <= dead;
    assert |dead| == |Dead(db.state)| && |left| == |Dead(kept)|;
    SubsetSize(left, dead);
    assert forall at <- dead :: at in left <==> !Removes(op, at);
  }

  lemma SubsetSize<T>(a: set<T>, b: set<T>)
    requires a <= b
    ensures |a| == |b| <==> forall x <- b :: x in a
  {
    assert b == a + (b - a);
    assert |a + (b - a)| == |a| + |b - a|;
    if |a| == |b| {
      assert b - a == {};
    }
    if forall x <- b :: x in a {
      assert a == b;
    }
  }

  // ---- Whole runs ------------------------------------------------------------------------------

  datatype Issued = Issued(op: Op, attempt: Attempt)

  /** Every call gets an id of its own. */
  ghost predicate DistinctIds(calls: seq<Issued>) {
    forall i, j :: 0 <= i < j < |calls| ==> calls[i].attempt != calls[j].attempt
  }

  ghost predicate AllSupported(calls: seq<Issued>) { forall i :: 0 <= i < |calls| ==> Supported(calls[i].op) }

  ghost function AzureRun(calls: seq<Issued>): Database
    requires AllSupported(calls)
  {
    if calls == [] then EMPTY
    else
      var last := calls[|calls| - 1];
      Do(AzureRun(calls[..|calls| - 1]), last.op, last.attempt).0
  }

  function OpsOf(calls: seq<Issued>): seq<Op> { seq(|calls|, i requires 0 <= i < |calls| => calls[i].op) }

  ghost predicate RowsFree(state: map<RowKey, StateRow>, id: Attempt) {
    forall at <- state.Keys :: state[at].lastAttempt != id && state[at].drainedBy != Some(id)
  }

  lemma PutRowsIds(state: map<RowKey, StateRow>, scope: Bytes, ns: Bytes, pairs: seq<Pair>, attempt: Attempt,
                   id: Attempt)
    requires id != attempt && RowsFree(state, id)
    ensures RowsFree(PutRows(state, scope, ns, pairs, attempt), id)
  {
    hide PutRows;
    var after := PutRows(state, scope, ns, pairs, attempt);
    forall at | at in after ensures after[at].lastAttempt != id && after[at].drainedBy != Some(id) {
      PutRowsAt(state, scope, ns, pairs, attempt, at);
    }
  }

  /** A call writes no id but its own. */
  lemma DoKeepsFresh(db: Database, op: Op, attempt: Attempt, id: Attempt)
    requires Supported(op) && Fresh(db, id) && id != attempt
    ensures Fresh(Do(db, op, attempt).0, id)
  {
    hide Where, PutRows, ScanOf, OrdinalOf, Deletes, TakenBy, Namespace, Live, GetOf, RowsOf, EntriesAfter;
    if op.PutMany? {
      PutRowsIds(db.state, op.scope, op.ns, op.pairs, attempt, id);
    } else if op.ClearScope? {
      WhereSelects(db.log, LoggedOutOf(op.scope));
    }
  }

  lemma {:induction false} UnissuedIdsAreFresh(calls: seq<Issued>, id: Attempt)
    requires AllSupported(calls) && forall i :: 0 <= i < |calls| ==> calls[i].attempt != id
    ensures Fresh(AzureRun(calls), id)
  {
    hide Do, Fresh;
    if calls == [] {
      EmptyIsFresh(id);
    } else {
      var init, last := calls[..|calls| - 1], calls[|calls| - 1];
      UnissuedIdsAreFresh(init, id);
      DoKeepsFresh(AzureRun(init), last.op, last.attempt, id);
    }
  }

  lemma EmptyIsFresh(id: Attempt)
    ensures Fresh(EMPTY, id)
  {
  }

  /** After any run of calls the live rows, log and counters are those of the plain store after the same operations. */
  lemma {:induction false} RunRefinesPlainRun(calls: seq<Issued>)
    requires AllSupported(calls) && DistinctIds(calls)
    ensures Plain(AzureRun(calls)) == Run(OpsOf(calls))
  {
    hide Do, Step, Fresh;
    if calls == [] {
      EmptyIsPlain();
    } else {
      var init, last := calls[..|calls| - 1], calls[|calls| - 1];
      RunRefinesPlainRun(init);
      UnissuedIdsAreFresh(init, last.attempt);
      DoRefinesStep(AzureRun(init), last.op, last.attempt);
      assert OpsOf(calls)[..|calls| - 1] == OpsOf(init);
    }
  }

  lemma EmptyIsPlain()
    ensures Plain(EMPTY) == NO_TABLES
  {
  }
}
