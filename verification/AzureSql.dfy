/**
 The Azure SQL client: one attempt on the current connection, and the retry around it. Each contract says
 which outcome it is, and what that means for the store.
 */
module AzureSql {
  import opened Common
  import opened Bytes
  import opened Storage
  import opened StorageLaws
  import opened AzureStorage
  import opened AzureRetry
  import opened AzureRefinement

  /**
   One attempt of a fresh call. An answer means that the plain store has taken exactly this operation, that the
   same attempt made again would find its trace, change nothing and answer alike, and that a scan lists the live rows
   of its range in bytewise order. A failure has done that
   too or nothing, but for identity values.
   */
  ghost predicate AttemptLaw(before: Database, after: Database, op: Op, attempt: Attempt, reply: Option<Reply>)
    requires Supported(op)
  {
    var (plain, answer) := Step(Plain(before), op);
    match reply
    case Some(r) =>
      && Plain(after) == plain && (!op.Delete? && !op.ClearScope? ==> r == answer)
      && (Tracked(op) ==> Do(after, op, attempt) == (after, r))
      && (op.Scan? ==> r.Pairs? && OrderedRange(Live(before.state), op.scope, op.ns, op.range, op.reverse, op.limit,
                                                r.pairs))
    case None => Plain(after) == plain || exists burned: nat :: after == Burned(before, burned)
  }

  lemma AttemptObeysLaw(db: Database, op: Op, attempt: Attempt, fault: Fault)
    requires Supported(op) && Fresh(db, attempt)
    ensures AttemptLaw(db, Left(db, op, attempt, fault), op, attempt,
                       if fault.NoFault? then Some(Do(db, op, attempt).1) else None)
  {
    hide Do, Step, Fresh, Plain, OrderedRange, Live;
    DoRefinesStep(db, op, attempt);
    if fault.NoFault? && Tracked(op) {
      RepeatsUnseen(db, op, attempt);
    }
    if op.Scan? {
      ScanListsLiveRows(db, op, attempt);
    }
    assert Burned(db, 0) == db;
  }

  lemma ScanListsLiveRows(db: Database, op: Op, attempt: Attempt)
    requires Supported(op) && op.Scan?
    ensures var reply := Do(db, op, attempt).1;
            && reply.Pairs?
            && OrderedRange(Live(db.state), op.scope, op.ns, op.range, op.reverse, op.limit, reply.pairs)
  {
    hide OrderedRange, ScanOf, Live;
    ScanIsOrderedRange(Live(db.state), op.scope, op.ns, op.range, op.reverse, op.limit);
  }

  /** Repeated at once, a tracked call changes nothing and answers alike. */
  lemma RepeatsUnseen(db: Database, op: Op, attempt: Attempt)
    requires Supported(op) && Tracked(op) && Fresh(db, attempt)
    ensures Do(Do(db, op, attempt).0, op, attempt) == Do(db, op, attempt)
  {
    hide Do, Fresh, StillLanded, Untouched, NoForgery;
    NobodyElse(op, attempt, Do(db, op, attempt).0);
    UntouchedStillLanded(db, op, attempt, Do(db, op, attempt).0);
    OnceExactlyWhenStillLanded(db, op, attempt, Do(db, op, attempt).0);
  }

  lemma NobodyElse(op: Op, attempt: Attempt, db: Database)
    ensures Untouched(op, db, db) && NoForgery(attempt, db, db)
  {
  }

  /** What a retried call has done when nobody touches its rows between the attempts. */
  ghost predicate OnceLaw(db: Database, op: Op, attempt: Attempt, first: Fault, others: Database -> Database,
                          after: Database, outcome: Outcome)
    requires Supported(op)
  {
    match outcome
    case Returned(reply) =>
      (after, reply) == if first.NoFault? then Do(db, op, attempt)
                        else if first.ConnectionLost? && first.committed
                            then (others(Do(db, op, attempt).0), Do(db, op, attempt).1)
                        else Do(others(Left(db, op, attempt, first)), op, attempt)
    case Raised(_) =>
      || after == Left(db, op, attempt, first)
      || (exists burned: nat :: after == Burned(others(Left(db, op, attempt, first)), burned))
      || (first.ConnectionLost? && !first.committed && after == Do(others(Burned(db, first.burned)), op, attempt).0)
  }

  lemma RetriedObeysLaw(db: Database, op: Op, attempt: Attempt, first: Fault, others: Database -> Database,
                        second: Fault)
    requires Supported(op) && Tracked(op) && Fresh(db, attempt)
    requires Quiet(op, attempt, Left(db, op, attempt, first), others(Left(db, op, attempt, first)))
    ensures var (after, outcome) := Retried(db, op, attempt, first, others, second);
            OnceLaw(db, op, attempt, first, others, after, outcome)
  {
    hide Do, Fresh, Quiet, Tracked;
    var (after, outcome) := Retried(db, op, attempt, first, others, second);
    if outcome.Returned? {
      ReturnedMeansOnce(db, op, attempt, first, others, second);
    } else {
      RaisedMeansAtMostOnce(db, op, attempt, first, others, second);
    }
  }

  class FunctionStorageAzureSql {
    var db: Database
    var connected: bool

    constructor ()
      ensures db == EMPTY && !connected
    {
      db := EMPTY;
      connected := false;
    }

    method Connect()
      modifies this`connected
      ensures connected
    {
      if !connected {
        connected := true;
      }
    }

    method Reconnect()
      modifies this`connected
      ensures !connected
    {
      connected := false;
    }

    /** The body of `state_put_many`: probe, one MERGE per pair, commit. */
    method PutMany(scope: Bytes, ns: Bytes, pairs: seq<Pair>, attempt: Attempt) returns (working: Database)
      requires pairs != []
      ensures (working, Done) == Do(db, Op.PutMany(scope, ns, pairs), attempt)
      ensures Fresh(db, attempt) ==> forall at :: PutLaw(Live(db.state), Live(working.state), scope, ns, pairs, at)
    {
      if Fresh(db, attempt) {
        forall at ensures PutLaw(Live(db.state), Live(Do(db, Op.PutMany(scope, ns, pairs), attempt).0.state), scope, ns,
                                 pairs, at) {
          PutStores(Live(db.state), scope, ns, pairs, at);
          LiveOfPut(db.state, scope, ns, pairs, attempt);
        }
      }
      hide PutLaw, Fresh, Live;
      working := db;
      if Landed(db, Op.PutMany(scope, ns, pairs), attempt) {
        return;
      }
      for i := 0 to |pairs|
        invariant working == db.(state := PutRows(db.state, scope, ns, pairs[..i], attempt))
      {
        var at := RowKey(scope, ns, pairs[i].key);
        working := working.(state := working.state[at := StateRow(pairs[i].value, attempt, None)]);
        assert pairs[..i + 1][..i] == pairs[..i];
      }
      assert pairs[..|pairs|] == pairs;
    }

    /** One call of the operation's body on the current connection. */
    method Perform(op: Op, attempt: Attempt, fault: Fault) returns (reply: Option<Reply>)
      requires Supported(op) && connected
      modifies this`db
      ensures db == Left(old(db), op, attempt, fault)
      ensures reply == if fault.NoFault? then Some(Do(old(db), op, attempt).1) else None
      ensures Fresh(old(db), attempt) ==> AttemptLaw(old(db), db, op, attempt, reply)
    {
      if Fresh(db, attempt) {
        AttemptObeysLaw(db, op, attempt, fault);
      }
      hide AttemptLaw, Fresh, Do;
      if fault.MissingTables? {
        return None;
      }
      var working, answer := Do(db, op, attempt).0, Do(db, op, attempt).1;
      if op.PutMany? && op.pairs != [] {
        working := PutMany(op.scope, op.ns, op.pairs, attempt);
      }
      if !fault.NoFault? && !fault.committed {
        db := Burned(db, fault.burned);
        return None;
      }
      db := working;
      return if fault.NoFault? then Some(answer) else None;
    }

    /**
     Only a lost connection is tried again, and once. The call returns the answer of the attempt that gets through,
     and raises what the last attempt met.
     */
    method ExecuteWithRetry(op: Op, attempt: Attempt, first: Fault, others: Database -> Database, second: Fault)
      returns (r: Outcome)
      requires Supported(op)
      modifies this
      ensures (db, r) == Retried(old(db), op, attempt, first, others, second)
      ensures first.NoFault? ==> (db, r.Returned?) == (Do(old(db), op, attempt).0, true)
                                 && r.reply == Do(old(db), op, attempt).1
      ensures first.ConnectionLost? ==>
                var between := others(Left(old(db), op, attempt, first));
                && db == Left(between, op, attempt, second)
                && r == if second.NoFault? then Returned(Do(between, op, attempt).1) else Raised(second)
      ensures first.MissingTables? || first.OtherError? ==>
                (db, r) == (Left(old(db), op, attempt, first), Raised(first))
      ensures Tracked(op) && Fresh(old(db), attempt)
              && Quiet(op, attempt, Left(old(db), op, attempt, first), others(Left(old(db), op, attempt, first)))
              ==> OnceLaw(old(db), op, attempt, first, others, db, r)
    {
      if Tracked(op) && Fresh(db, attempt)
          && Quiet(op, attempt, Left(db, op, attempt, first), others(Left(db, op, attempt, first))) {
        RetriedObeysLaw(db, op, attempt, first, others, second);
      }
      hide OnceLaw, Fresh, Quiet, Do, Tracked;
      var i := 0;
      while true
        invariant 0 <= i < 2
        invariant i == 0 ==> db == old(db)
        invariant i == 1 ==> first.ConnectionLost? && db == others(Left(old(db), op, attempt, first))
        decreases 2 - i
      {
        var fault := if i == 0 then first else second;
        Connect();
        var reply := Perform(op, attempt, fault);
        if reply.Some? {
          return Returned(reply.value);
        }
        if !fault.ConnectionLost? || i == 1 {
          return Raised(fault);
        }
        Reconnect();
        db := others(db);
        i := i + 1;
      }
    }
  }
}
