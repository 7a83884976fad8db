/**
 The Azure SQL store: rows carry attempt ids and drains leave tombstones, so that an operation whose
 connection broke can be attempted once more.
 */
module AzureStorage {
  import opened Common
  import opened Bytes
  import opened Storage

  /** The random id of one call, the same in both of its attempts. */
  type Attempt = nat

  /** A drained row stays as a tombstone: `drained_at` and `drained_by_attempt` are set together. */
  datatype StateRow = StateRow(value: Bytes, lastAttempt: Attempt, drainedBy: Option<Attempt>)
  datatype Logged = Logged(row: LogRow, attempt: Attempt)
  datatype CounterRow = CounterRow(n: int, lastAttempt: Option<Attempt>)

  /** `lastId` is the IDENTITY column's high-water mark. */
  datatype Database = Database(
    state: map<RowKey, StateRow>,
    log: seq<Logged>,
    lastId: int,
    counters: map<RowKey, CounterRow>)

  const EMPTY := Database(map[], [], 0, map[])

  /** Queue operations carry no attempt id, and `FETCH NEXT` refuses a limit below one. */
  predicate Supported(op: Op) {
    && !op.QueuePush? && !op.QueuePop? && !op.QueueClear?
    && ((op.Scan? || op.LogScan?) && op.limit.Some? ==> op.limit.value >= 1)
  }

  // ---- Reading the tables ----------------------------------------------------------------------

  /** Rows with `drained_at IS NULL`. */
  function Live(state: map<RowKey, StateRow>): map<RowKey, Bytes> {
    map at <- state.Keys | state[at].drainedBy.None? :: state[at].value
  }

  /** Rows of a namespace drained by this attempt. */
  function TakenBy(state: map<RowKey, StateRow>, scope: Bytes, ns: Bytes, attempt: Attempt): map<Bytes, Bytes> {
    map at <- state.Keys | at.scope == scope && at.ns == ns && state[at].drainedBy == Some(attempt) ::
      at.key := state[at].value
  }

  function RowsOf(log: seq<Logged>): seq<LogRow> { seq(|log|, i requires 0 <= i < |log| => log[i].row) }

  /** The ordinal an attempt already got for a key. */
  function OrdinalOf(log: seq<Logged>, at: RowKey, attempt: Attempt): (r: Option<int>)
    ensures r.Some? ==>
            exists i :: 0 <= i < |log| && log[i].row.owner == at && log[i].attempt == attempt
                && log[i].row.id == r.value
    ensures r.None? ==> forall i :: 0 <= i < |log| ==> !(log[i].row.owner == at && log[i].attempt == attempt)
  {
    if log == [] then None
    else if log[0].row.owner == at && log[0].attempt == attempt then Some(log[0].row.id)
    else OrdinalOf(log[1..], at, attempt)
  }

  function LoggedOutOf(scope: Bytes): Logged -> bool { (l: Logged) => l.row.owner.scope != scope }

  /** The test each attempt makes first: has this call already landed? */
  predicate Landed(db: Database, op: Op, attempt: Attempt) {
    match op
    case PutMany(scope, ns, pairs) =>
      pairs != [] && var at := RowKey(scope, ns, pairs[0].key); at in db.state && db.state[at].lastAttempt == attempt
    case Drain(scope, ns) => TakenBy(db.state, scope, ns, attempt) != map[]
    case Append(at, _) => OrdinalOf(db.log, at, attempt).Some?
    case CounterAdd(at, _) => at in db.counters && db.counters[at].lastAttempt == Some(attempt)
    case _ => false
  }

  // ---- One attempt -----------------------------------------------------------------------------

  /** The MERGE of each pair in turn; writing a key again revives its tombstone. */
  function PutRows(state: map<RowKey, StateRow>, scope: Bytes, ns: Bytes, pairs: seq<Pair>,
                   attempt: Attempt): map<RowKey, StateRow> {
    if pairs == [] then state
    else
      var last := pairs[|pairs| - 1];
      var before := PutRows(state, scope, ns, pairs[..|pairs| - 1], attempt);
      before[RowKey(scope, ns, last.key) := StateRow(last.value, attempt, None)]
  }

  function Tombstoned(state: map<RowKey, StateRow>, scope: Bytes, ns: Bytes, attempt: Attempt): map<RowKey, StateRow> {
    map at <- state.Keys :: if at.scope == scope && at.ns == ns && state[at].drainedBy.None?
                            then state[at].(drainedBy := Some(attempt)) else state[at]
  }

  function CountOf(counters: map<RowKey, CounterRow>, at: RowKey): int {
    if at in counters then counters[at].n else 0
  }

  /** The transaction of one attempt: what it commits and what it answers. */
  function Do(db: Database, op: Op, attempt: Attempt): (Database, Reply)
    requires Supported(op)
  {
    match op
    case GetMany(scope, ns, keys) =>
      (db, Values(seq(|keys|, i requires 0 <= i < |keys| => GetOf(Live(db.state), RowKey(scope, ns, keys[i])))))
    case PutMany(scope, ns, pairs) =>
      if Landed(db, op, attempt) then (db, Done) else (db.(state := PutRows(db.state, scope, ns, pairs, attempt)), Done)
    case Scan(scope, ns, range, reverse, limit) =>
      (db, Pairs(ScanOf(Live(db.state), scope, ns, range, reverse, limit)))
    case Drain(scope, ns) =>
      if Landed(db, op, attempt) then (db, Taken(TakenBy(db.state, scope, ns, attempt)))
      else (db.(state := Tombstoned(db.state, scope, ns, attempt)), Taken(Namespace(Live(db.state), scope, ns)))
    case Delete(scope, ns, only, range) =>
      if only.Some? && (range.start.Some? || range.end.Some?) then (db, Invalid)
      else
        var kept := map at <- db.state.Keys | !Deletes(scope, ns, only, range, at) :: db.state[at];
        (db.(state := kept), Count(|db.state| - |kept|))
    case ClearScope(scope) =>
      var state := OutsideScope(db.state, scope);
      var log := Where(db.log, LoggedOutOf(scope));
      var counters := OutsideScope(db.counters, scope);
      (db.(state := state, log := log, counters := counters),
       Count((|db.state| - |state|) + (|db.log| - |log|) + (|db.counters| - |counters|)))
    case Append(at, item) =>
      (match OrdinalOf(db.log, at, attempt)
       case Some(id) => (db, Ordinal(id))
       case None =>
         var id := db.lastId + 1;
         (db.(log := db.log + [Logged(Row(id, at, item), attempt)], lastId := id), Ordinal(id)))
    case LogScan(at, afterId, limit) =>
      (db, Entries(Limited(EntriesAfter(RowsOf(db.log), at, afterId), limit)))
    case CounterGet(at) => (db, Number(CountOf(db.counters, at)))
    case CounterAdd(at, delta) =>
      if Landed(db, op, attempt) then (db, Number(db.counters[at].n))
      else
        var n := CountOf(db.counters, at) + delta;
        (db.(counters := db.counters[at := CounterRow(n, Some(attempt))]), Number(n))
    case CounterSet(at, value) => (db.(counters := db.counters[at := CounterRow(value, None)]), Done)
    case CounterDelete(at) => (db.(counters := db.counters - {at}), Done)
    case _ => (db, Invalid)
  }

  // ---- Failures and the retry ------------------------------------------------------------------

  /**
   What goes wrong in an attempt: the connection is lost, the tables are missing, or another error is raised,
   before or after the commit. A rollback keeps the identity values already used up.
   */
  datatype Fault =
    | NoFault
    | ConnectionLost(committed: bool, burned: nat)
    | MissingTables
    | OtherError(committed: bool, burned: nat)

  datatype Outcome = Returned(reply: Reply) | Raised(fault: Fault)

  function Burned(db: Database, burned: nat): Database { db.(lastId := db.lastId + burned) }

  /** The tables an attempt leaves behind. */
  function Left(db: Database, op: Op, attempt: Attempt, fault: Fault): Database
    requires Supported(op)
  {
    match fault
    case NoFault => Do(db, op, attempt).0
    case MissingTables => db
    case ConnectionLost(committed, burned) => if committed then Do(db, op, attempt).0 else Burned(db, burned)
    case OtherError(committed, burned) => if committed then Do(db, op, attempt).0 else Burned(db, burned)
  }

  /** Both attempts, with what other writers do to the tables in between. */
  function Retried(db: Database, op: Op, attempt: Attempt, first: Fault, others: Database -> Database,
                   second: Fault): (Database, Outcome)
    requires Supported(op)
  {
    var db1 := Left(db, op, attempt, first);
    match first
    case NoFault => (db1, Returned(Do(db, op, attempt).1))
    case ConnectionLost(_, _) =>
      var db2 := others(db1);
      (Left(db2, op, attempt, second), if second.NoFault? then Returned(Do(db2, op, attempt).1) else Raised(second))
    case _ => (db1, Raised(first))
  }

  // ---- A call and the rows it is about ---------------------------------------------------------

  /** Calls that carry an attempt id. */
  predicate Tracked(op: Op) { (op.PutMany? && op.pairs != []) || op.Drain? || op.Append? || op.CounterAdd? }

  /** No row carries the id. */
  ghost predicate Fresh(db: Database, attempt: Attempt) {
    && (forall at <- db.state.Keys :: db.state[at].lastAttempt != attempt && db.state[at].drainedBy != Some(attempt))
    && (forall i :: 0 <= i < |db.log| ==> db.log[i].attempt != attempt)
    && (forall at <- db.counters.Keys :: db.counters[at].lastAttempt != Some(attempt))
  }

  /** Others never write this id: a row that carries it is one that carried it before. */
  ghost predicate NoForgery(attempt: Attempt, before: Database, after: Database) {
    && (forall at <- after.state.Keys | after.state[at].lastAttempt == attempt ::
          at in before.state && before.state[at].lastAttempt == attempt)
    && (forall at <- after.state.Keys | after.state[at].drainedBy == Some(attempt) ::
          at in before.state && before.state[at] == after.state[at])
    && (forall i :: 0 <= i < |after.log| && after.log[i].attempt == attempt ==> after.log[i] in before.log)
    && (forall at <- after.counters.Keys | after.counters[at].lastAttempt == Some(attempt) ::
          at in before.counters && before.counters[at] == after.counters[at])
  }

  /** Others leave alone the rows the call reads and writes. */
  ghost predicate Untouched(op: Op, before: Database, after: Database) {
    match op
    case PutMany(scope, ns, pairs) => forall p <- pairs :: SameRow(before.state, after.state, RowKey(scope, ns, p.key))
    case Drain(scope, ns) =>
        forall at: RowKey :: at.scope == scope && at.ns == ns ==> SameRow(before.state, after.state, at)
    case Append(at, _) => forall l: Logged :: l.row.owner == at ==> (l in before.log <==> l in after.log)
    case CounterAdd(at, _) => SameRow(before.counters, after.counters, at)
    case _ => true
  }

  ghost predicate SameRow<V>(before: map<RowKey, V>, after: map<RowKey, V>, at: RowKey) {
    (at in before <==> at in after) && (at in before ==> before[at] == after[at])
  }
}
