/** What a retried call has done, for every placement of a failure before or after its commit. */
module AzureRetry {
  import opened Common
  import opened Bytes
  import opened Storage
  import opened StorageRuns
  import opened AzureStorage

  // ---- What one transaction leaves ------------------------------------------------------------

  lemma {:induction false} PutRowsAt(state: map<RowKey, StateRow>, scope: Bytes, ns: Bytes, pairs: seq<Pair>,
                                     attempt: Attempt, at: RowKey)
    ensures var after := PutRows(state, scope, ns, pairs, attempt);
            if at.scope == scope && at.ns == ns && exists i :: 0 <= i < |pairs| && pairs[i].key == at.key
            then at in after && after[at].lastAttempt == attempt && after[at].drainedBy.None?
            else SameRow(state, after, at)
  {
    if pairs != [] {
      var init, last := pairs[..|pairs| - 1], pairs[|pairs| - 1];
      PutRowsAt(state, scope, ns, init, attempt, at);
      if i :| 0 <= i < |pairs| && pairs[i].key == at.key && i < |init| {
        assert init[i].key == at.key;
      }
      assert pairs[|pairs| - 1].key == last.key;
    }
  }

  lemma TombstonesAreTaken(state: map<RowKey, StateRow>, scope: Bytes, ns: Bytes, attempt: Attempt)
    requires forall at <- state.Keys :: state[at].drainedBy != Some(attempt)
    ensures TakenBy(Tombstoned(state, scope, ns, attempt), scope, ns, attempt) == Namespace(Live(state), scope, ns)
  {
    var a, b := TakenBy(Tombstoned(state, scope, ns, attempt), scope, ns, attempt), Namespace(Live(state), scope, ns);
    forall k ensures k in a <==> k in b
             ensures k in a ==> a[k] == b[k]
    {
      var at := RowKey(scope, ns, k);
      assert at in Live(state) <==> at in state && state[at].drainedBy.None?;
    }
  }

  lemma {:induction false} OrdinalOfAppended(log: seq<Logged>, l: Logged)
    requires forall i :: 0 <= i < |log| ==> log[i].attempt != l.attempt
    ensures OrdinalOf(log + [l], l.row.owner, l.attempt) == Some(l.row.id)
  {
    if log != [] {
      assert (log + [l])[1..] == log[1..] + [l];
      OrdinalOfAppended(log[1..], l);
    }
  }

  // ---- A second attempt after a lost commit ----------------------------------------------------

  /** The trace a second attempt looks for is all there, and nothing else is left for it to do. */
  ghost predicate StillLanded(op: Op, attempt: Attempt, before: Database, after: Database) {
    match op
    case Drain(scope, ns) =>
      && TakenBy(after.state, scope, ns, attempt) == TakenBy(before.state, scope, ns, attempt)
      && (TakenBy(before.state, scope, ns, attempt) == map[] ==> Namespace(Live(after.state), scope, ns) == map[])
    case _ => Landed(after, op, attempt)
  }

  /** The second attempt changes nothing and answers as the first would have. */
  ghost predicate NoSecondEffect(db: Database, op: Op, attempt: Attempt, later: Database)
    requires Supported(op)
  {
    Do(later, op, attempt) == (later, Do(db, op, attempt).1)
  }

  /**
   Whatever other writers do after the lost commit, the call has taken effect once exactly when its trace
   is still there.
   */
  lemma OnceExactlyWhenStillLanded(db: Database, op: Op, attempt: Attempt, later: Database)
    requires Supported(op) && Tracked(op) && Fresh(db, attempt) && NoForgery(attempt, Do(db, op, attempt).0, later)
    ensures NoSecondEffect(db, op, attempt, later) <==> StillLanded(op, attempt, Do(db, op, attempt).0, later)
  {
    match op
    case PutMany(scope, ns, pairs) => PutOnce(db, scope, ns, pairs, attempt, later);
    case Drain(scope, ns) => DrainOnce(db, scope, ns, attempt, later);
    case Append(at, item) => AppendOnce(db, at, item, attempt, later);
    case CounterAdd(at, delta) => AddOnce(db, at, delta, attempt, later);
  }

  lemma PutOnce(db: Database, scope: Bytes, ns: Bytes, pairs: seq<Pair>, attempt: Attempt, later: Database)
    requires pairs != [] && Fresh(db, attempt)
    ensures var op := PutMany(scope, ns, pairs);
            NoSecondEffect(db, op, attempt, later) <==> StillLanded(op, attempt, Do(db, op, attempt).0, later)
  {
    PutRowsAt(later.state, scope, ns, pairs, attempt, RowKey(scope, ns, pairs[0].key));
  }

  lemma NoLiveRows(state: map<RowKey, StateRow>, scope: Bytes, ns: Bytes, attempt: Attempt)
    ensures Namespace(Live(state), scope, ns) == map[] <==> Tombstoned(state, scope, ns, attempt) == state
  {
    var live := Namespace(Live(state), scope, ns);
    assert forall at :: at in Live(state) && at.scope == scope && at.ns == ns ==> at.key in live;
    if live == map[] {
      assert forall at <- state.Keys | at.scope == scope && at.ns == ns :: at !in Live(state);
    } else {
      var k :| k in live;
      var at := RowKey(scope, ns, k);
      assert state[at].drainedBy.None? && Tombstoned(state, scope, ns, attempt)[at].drainedBy.Some?;
    }
  }

  lemma FreshDrain(db: Database, scope: Bytes, ns: Bytes, attempt: Attempt)
    requires Fresh(db, attempt)
    ensures Do(db, Drain(scope, ns), attempt)
            == (db.(state := Tombstoned(db.state, scope, ns, attempt)), Taken(Namespace(Live(db.state), scope, ns)))
    ensures TakenBy(Tombstoned(db.state, scope, ns, attempt), scope, ns, attempt)
            == Namespace(Live(db.state), scope, ns)
  {
    hide TakenBy, Tombstoned, Namespace, Live;
    NothingTakenYet(db.state, scope, ns, attempt);
    TombstonesAreTaken(db.state, scope, ns, attempt);
  }

  lemma DrainOnce(db: Database, scope: Bytes, ns: Bytes, attempt: Attempt, later: Database)
    requires Fresh(db, attempt)
    ensures NoSecondEffect(db, Drain(scope, ns), attempt, later)
            <==> StillLanded(Drain(scope, ns), attempt, Do(db, Drain(scope, ns), attempt).0, later)
  {
    hide TakenBy, Tombstoned, Namespace, Live;
    FreshDrain(db, scope, ns, attempt);
    NoLiveRows(later.state, scope, ns, attempt);
  }

  lemma NothingTakenYet(state: map<RowKey, StateRow>, scope: Bytes, ns: Bytes, attempt: Attempt)
    requires forall at <- state.Keys :: state[at].drainedBy != Some(attempt)
    ensures TakenBy(state, scope, ns, attempt) == map[]
  {
  }

  lemma AppendOnce(db: Database, at: RowKey, item: Bytes, attempt: Attempt, later: Database)
    requires Fresh(db, attempt) && NoForgery(attempt, Do(db, Append(at, item), attempt).0, later)
    ensures NoSecondEffect(db, Append(at, item), attempt, later)
            <==> StillLanded(Append(at, item), attempt, Do(db, Append(at, item), attempt).0, later)
  {
    var id := OrdinalOf(later.log, at, attempt);
    if id.Some? {
      var i :| 0 <= i < |later.log| && later.log[i].row.owner == at && later.log[i].attempt == attempt
          && later.log[i].row.id == id.value;
      assert later.log[i] in Do(db, Append(at, item), attempt).0.log;
    } else {
      assert |Do(later, Append(at, item), attempt).0.log| == |later.log| + 1;
    }
  }

  lemma AddOnce(db: Database, at: RowKey, delta: int, attempt: Attempt, later: Database)
    requires Fresh(db, attempt) && NoForgery(attempt, Do(db, CounterAdd(at, delta), attempt).0, later)
    ensures NoSecondEffect(db, CounterAdd(at, delta), attempt, later)
            <==> StillLanded(CounterAdd(at, delta), attempt, Do(db, CounterAdd(at, delta), attempt).0, later)
  {
    if !Landed(later, CounterAdd(at, delta), attempt) {
      assert Do(later, CounterAdd(at, delta), attempt).0.counters[at].lastAttempt == Some(attempt);
    }
  }

  /** While no other writer touches the call's rows its trace stays. */
  lemma UntouchedStillLanded(db: Database, op: Op, attempt: Attempt, later: Database)
    requires Supported(op) && Tracked(op) && Fresh(db, attempt)
    requires Untouched(op, Do(db, op, attempt).0, later)
    ensures StillLanded(op, attempt, Do(db, op, attempt).0, later)
  {
    var after := Do(db, op, attempt).0;
    match op
    case PutMany(scope, ns, pairs) =>
      PutRowsAt(db.state, scope, ns, pairs, attempt, RowKey(scope, ns, pairs[0].key));
      assert pairs[0] in pairs;
    case Drain(scope, ns) => UntouchedDrain(db, scope, ns, attempt, later);
    case Append(at, item) =>
      OrdinalOfAppended(db.log, Logged(Row(db.lastId + 1, at, item), attempt));
      assert after.log[|db.log|] in later.log;
    case CounterAdd(at, delta) =>
  }

  lemma UntouchedDrain(db: Database, scope: Bytes, ns: Bytes, attempt: Attempt, later: Database)
    requires Fresh(db, attempt) && Untouched(Drain(scope, ns), Do(db, Drain(scope, ns), attempt).0, later)
    ensures StillLanded(Drain(scope, ns), attempt, Do(db, Drain(scope, ns), attempt).0, later)
  {
    assert TakenBy(db.state, scope, ns, attempt) == map[];
    SameNamespaceRows(Tombstoned(db.state, scope, ns, attempt), later.state, scope, ns, attempt);
  }

  lemma SameNamespaceRows(before: map<RowKey, StateRow>, after: map<RowKey, StateRow>, scope: Bytes, ns: Bytes,
                          attempt: Attempt)
    requires forall at: RowKey :: at.scope == scope && at.ns == ns ==> SameRow(before, after, at)
    ensures TakenBy(after, scope, ns, attempt) == TakenBy(before, scope, ns, attempt)
    ensures (forall at <- before.Keys | at.scope == scope && at.ns == ns :: before[at].drainedBy.Some?)
            ==> Namespace(Live(after), scope, ns) == map[]
  {
    assert forall at: RowKey :: at.scope == scope && at.ns == ns && at in after ==> SameRow(before, after, at);
    var a, b := TakenBy(after, scope, ns, attempt), TakenBy(before, scope, ns, attempt);
    forall k ensures k in a <==> k in b
             ensures k in a ==> a[k] == b[k]
    {
      assert SameRow(before, after, RowKey(scope, ns, k));
    }
  }

  // ---- Exactly once, at most once --------------------------------------------------------------

  /** Between the attempts others neither touch the call's rows nor use its id. */
  ghost predicate Quiet(op: Op, attempt: Attempt, before: Database, after: Database) {
    Untouched(op, before, after) && NoForgery(attempt, before, after)
  }

  /**
   A call that returns has taken effect exactly once and returns the value of that one effect: in the first
   attempt if that committed, before whatever others did, and otherwise in the second, after it.
   */
  lemma ReturnedMeansOnce(db: Database, op: Op, attempt: Attempt, first: Fault, others: Database -> Database,
                          second: Fault)
    requires Supported(op) && Tracked(op) && Fresh(db, attempt)
    requires Quiet(op, attempt, Left(db, op, attempt, first), others(Left(db, op, attempt, first)))
    requires Retried(db, op, attempt, first, others, second).1.Returned?
    ensures var (after, outcome) := Retried(db, op, attempt, first, others, second);
            if first.NoFault? then (after, outcome.reply) == Do(db, op, attempt)
            else if first.committed
                then (after, outcome.reply) == (others(Do(db, op, attempt).0), Do(db, op, attempt).1)
            else (after, outcome.reply) == Do(others(Burned(db, first.burned)), op, attempt)
  {
    hide Do, Untouched, NoForgery, Fresh, StillLanded;
    if first.ConnectionLost? && first.committed {
      var later := others(Do(db, op, attempt).0);
      UntouchedStillLanded(db, op, attempt, later);
      OnceExactlyWhenStillLanded(db, op, attempt, later);
    }
  }

  /** A call that raises has taken effect at most once. */
  lemma RaisedMeansAtMostOnce(db: Database, op: Op, attempt: Attempt, first: Fault, others: Database -> Database,
                              second: Fault)
    requires Supported(op) && Tracked(op) && Fresh(db, attempt)
    requires Quiet(op, attempt, Left(db, op, attempt, first), others(Left(db, op, attempt, first)))
    requires Retried(db, op, attempt, first, others, second).1.Raised?
    ensures var after := Retried(db, op, attempt, first, others, second).0;
            || after == Left(db, op, attempt, first)
            || (exists burned: nat :: after == Burned(others(Left(db, op, attempt, first)), burned))
            || (!first.NoFault? && !first.MissingTables? && !first.committed
                && after == Do(others(Burned(db, first.burned)), op, attempt).0)
  {
    hide Do, Untouched, NoForgery, Fresh, StillLanded;
    if first.ConnectionLost? {
      var db1 := Left(db, op, attempt, first);
      assert Burned(others(db1), 0) == others(db1);
      if first.committed {
        UntouchedStillLanded(db, op, attempt, others(db1));
        OnceExactlyWhenStillLanded(db, op, attempt, others(db1));
        assert Left(others(db1), op, attempt, second)
               == Burned(others(db1), if second.MissingTables? || second.committed then 0 else second.burned);
      } else if !second.MissingTables? && !second.committed {
        assert Left(others(db1), op, attempt, second) == Burned(others(db1), second.burned);
      }
    }
  }

  // ---- Where interference shows ----------------------------------------------------------------

  lemma LostThenRepeated(db: Database, op: Op, attempt: Attempt, others: Database -> Database)
    requires Supported(op)
    ensures var again := Do(others(Do(db, op, attempt).0), op, attempt);
            Retried(db, op, attempt, ConnectionLost(true, 0), others, NoFault) == (again.0, Returned(again.1))
  {
    hide Do;
  }

  /** A writer adding to the same counter between the attempts. */
  function Adding(at: RowKey, delta: int, attempt: Attempt): Database -> Database {
    (db: Database) => Do(db, CounterAdd(at, delta), attempt).0
  }

  /** Another worker's add to the same counter hides the trace: the lost and retried add counts twice. */
  lemma InterferingAddCountsTwice(db: Database, at: RowKey, delta: int, attempt: Attempt, other: int, theirs: Attempt)
    requires Fresh(db, attempt) && Fresh(db, theirs) && attempt != theirs
    ensures var (after, outcome) :=
              Retried(db, CounterAdd(at, delta), attempt, ConnectionLost(true, 0), Adding(at, other, theirs), NoFault);
            var n := CountOf(db.counters, at) + 2 * delta + other;
            CountOf(after.counters, at) == n && outcome == Returned(Number(n))
  {
    hide Do, Retried, CountOf;
    LostThenRepeated(db, CounterAdd(at, delta), attempt, Adding(at, other, theirs));
    var d1 := AfterAdd(db, at, delta, attempt);
    var d2 := AfterAdd(d1, at, other, theirs);
    var d3 := AfterAdd(d2, at, delta, attempt);
  }

  lemma AfterAdd(db: Database, at: RowKey, delta: int, attempt: Attempt) returns (after: Database)
    requires !Landed(db, CounterAdd(at, delta), attempt)
    ensures after == db.(counters := db.counters[at := CounterRow(CountOf(db.counters, at) + delta, Some(attempt))])
    ensures Do(db, CounterAdd(at, delta), attempt) == (after, Number(CountOf(db.counters, at) + delta))
    ensures CountOf(after.counters, at) == CountOf(db.counters, at) + delta
  {
    after := Do(db, CounterAdd(at, delta), attempt).0;
  }

  /** Another worker's write to a drained key removes that key's old value from the retried drain's answer. */
  lemma RewrittenKeyIsLostFromDrain(db: Database, scope: Bytes, ns: Bytes, attempt: Attempt, p: Pair, theirs: Attempt)
    requires Fresh(db, attempt) && Fresh(db, theirs) && attempt != theirs
    requires p.key in Namespace(Live(db.state), scope, ns) && Namespace(Live(db.state), scope, ns) - {p.key} != map[]
    ensures var others := (d: Database) => Do(d, PutMany(scope, ns, [p]), theirs).0;
            Retried(db, Drain(scope, ns), attempt, ConnectionLost(true, 0), others, NoFault).1
            == Returned(Taken(Namespace(Live(db.state), scope, ns) - {p.key}))
  {
    var taken := Namespace(Live(db.state), scope, ns);
    var d1 := db.(state := Tombstoned(db.state, scope, ns, attempt));
    var row := StateRow(p.value, theirs, None);
    var d2 := d1.(state := d1.state[RowKey(scope, ns, p.key) := row]);
    FreshDrain(db, scope, ns, attempt);
    OnePut(d1, scope, ns, p, theirs);
    TakenAfterRewrite(d1.state, scope, ns, attempt, p.key, row);
    RepeatedDrain(d2, scope, ns, attempt);
    hide Do, Tombstoned, Live, TakenBy, Namespace;
  }

  lemma RepeatedDrain(db: Database, scope: Bytes, ns: Bytes, attempt: Attempt)
    requires TakenBy(db.state, scope, ns, attempt) != map[]
    ensures Do(db, Drain(scope, ns), attempt) == (db, Taken(TakenBy(db.state, scope, ns, attempt)))
  {
  }

  lemma OnePut(db: Database, scope: Bytes, ns: Bytes, p: Pair, attempt: Attempt)
    requires var at := RowKey(scope, ns, p.key); at in db.state ==> db.state[at].lastAttempt != attempt
    ensures Do(db, PutMany(scope, ns, [p]), attempt).0
            == db.(state := db.state[RowKey(scope, ns, p.key) := StateRow(p.value, attempt, None)])
  {
    assert [p][..0] == [] && PutRows(db.state, scope, ns, [], attempt) == db.state;
  }

  lemma TakenAfterRewrite(state: map<RowKey, StateRow>, scope: Bytes, ns: Bytes, attempt: Attempt, key: Bytes,
                          row: StateRow)
    requires row.drainedBy.None?
    ensures TakenBy(state[RowKey(scope, ns, key) := row], scope, ns, attempt)
            == TakenBy(state, scope, ns, attempt) - {key}
  {
  }

  /** Calls without an attempt id can be repeated: a second time they change nothing, and remove nothing. */
  lemma UntrackedCallsAreIdempotent(db: Database, op: Op, attempt: Attempt)
    requires Supported(op) && !Tracked(op)
    ensures Do(Do(db, op, attempt).0, op, attempt).0 == Do(db, op, attempt).0
    ensures op.Delete? || op.ClearScope? ==> Do(Do(db, op, attempt).0, op, attempt).1 in {Count(0), Invalid}
  {
    hide ScanOf, EntriesAfter, Namespace, Deletes, Where, TakenBy, Live, OrdinalOf, OutsideScope, RowsOf, GetOf;
    if op.ClearScope? {
      ClearedTwice(db, op.scope, attempt);
    } else if op.Delete? {
      DeletedTwice(db, op, attempt);
    } else if op.PutMany? {
      assert PutRows(db.state, op.scope, op.ns, [], attempt) == db.state;
    } else if op.CounterSet? {
      SetTwice(db, op.at, op.value, attempt);
    } else if op.CounterDelete? {
      DeletedCounterTwice(db, op.at, attempt);
    } else {
      ReadOnly(db, op, attempt);
    }
    hide Do;
  }

  lemma SetTwice(db: Database, at: RowKey, value: int, attempt: Attempt)
    ensures Do(Do(db, CounterSet(at, value), attempt).0, CounterSet(at, value), attempt).0
            == Do(db, CounterSet(at, value), attempt).0
  {
    var row := CounterRow(value, None);
    assert db.counters[at := row][at := row] == db.counters[at := row];
  }

  lemma DeletedCounterTwice(db: Database, at: RowKey, attempt: Attempt)
    ensures Do(Do(db, CounterDelete(at), attempt).0, CounterDelete(at), attempt).0
            == Do(db, CounterDelete(at), attempt).0
  {
    assert (db.counters - {at}) - {at} == db.counters - {at};
  }

  lemma ReadOnly(db: Database, op: Op, attempt: Attempt)
    requires Supported(op) && (op.GetMany? || op.Scan? || op.LogScan? || op.CounterGet?)
    ensures Do(db, op, attempt).0 == db
  {
    hide ScanOf, EntriesAfter, RowsOf, Live, GetOf;
  }

  lemma ClearedTwice(db: Database, scope: Bytes, attempt: Attempt)
    ensures var once := Do(db, ClearScope(scope), attempt).0;
            Do(once, ClearScope(scope), attempt) == (once, Count(0))
  {
    hide Where, OutsideScope;
    WhereSelects(db.log, LoggedOutOf(scope));
    WhereAll(Where(db.log, LoggedOutOf(scope)), LoggedOutOf(scope));
    OutsideScopeTwice(db.state, scope);
    OutsideScopeTwice(db.counters, scope);
  }

  lemma OutsideScopeTwice<V>(rows: map<RowKey, V>, scope: Bytes)
    ensures OutsideScope(OutsideScope(rows, scope), scope) == OutsideScope(rows, scope)
  {
  }

  lemma DeletedTwice(db: Database, op: Op, attempt: Attempt)
    requires op.Delete?
    ensures var once := Do(db, op, attempt).0;
            Do(once, op, attempt).0 == once && Do(once, op, attempt).1 in {Count(0), Invalid}
  {
    hide Deletes;
    var once := Do(db, op, attempt).0;
    if !(op.only.Some? && (op.range.start.Some? || op.range.end.Some?)) {
      assert (map at <- once.state.Keys | !Deletes(op.scope, op.ns, op.only, op.range, at) :: once.state[at])
             == once.state;
    }
  }
}
