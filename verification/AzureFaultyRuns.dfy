/**
 Runs with failures and interleaving: however connections break, identity values are used up and the attempts
 of different workers' calls fall between each other, the Azure store is the plain store after the calls that
 took effect, in the order they did, up to an order-preserving renaming of log ordinals.
 */
module AzureFaultyRuns {
  import opened Common
  import opened Bytes
  import opened Storage
  import opened StorageRuns
  import opened ShardedStorage
  import opened AzureStorage
  import opened AzureRetry
  import opened AzureRefinement
  import opened AzureSql

  // ---- Attempts in the order they reach the database -------------------------------------------

  /** One attempt of some worker's call, and what goes wrong in it. */
  datatype Try = Try(op: Op, attempt: Attempt, fault: Fault)

  predicate Commits(fault: Fault) {
    fault.NoFault? || ((fault.ConnectionLost? || fault.OtherError?) && fault.committed)
  }

  ghost predicate TriesSupported(tries: seq<Try>) { forall i :: 0 <= i < |tries| ==> Supported(tries[i].op) }

  ghost function TryRun(tries: seq<Try>): Database
    requires TriesSupported(tries)
  {
    if tries == [] then EMPTY
    else
      var c := tries[|tries| - 1];
      Left(TryRun(tries[..|tries| - 1]), c.op, c.attempt, c.fault)
  }

  /** An earlier attempt under this id committed. */
  predicate HasLanded(tries: seq<Try>, id: Attempt) {
    exists i | 0 <= i < |tries| :: tries[i].attempt == id && Commits(tries[i].fault)
  }

  /** The attempt commits something new: a tracked call that has landed only finds its trace. */
  predicate Effective(before: seq<Try>, c: Try) { Commits(c.fault) && !(Tracked(c.op) && HasLanded(before, c.attempt)) }

  /** Nobody touches the rows of the call between the attempt at `i` and now. */
  ghost predicate LeftAlone(tries: seq<Try>, i: nat, op: Op)
    requires TriesSupported(tries)
  {
    forall k :: i < k < |tries| ==> Untouched(op, TryRun(tries[..k]), TryRun(tries[..k + 1]))
  }

  /**
   A call is attempted at most twice, the second time only after a lost connection; and the rows of a tracked
   call whose first attempt landed are left alone until the second. Other calls may come between in any number.
   */
  ghost predicate Orderly(tries: seq<Try>) {
    && TriesSupported(tries)
    && (tries != [] ==>
          var init, c := tries[..|tries| - 1], tries[|tries| - 1];
          && Orderly(init)
          && forall i :: 0 <= i < |init| && init[i].attempt == c.attempt ==>
               && init[i].op == c.op && init[i].fault.ConnectionLost?
               && (forall j :: 0 <= j < |init| && init[j].attempt == c.attempt ==> j == i)
               && (Tracked(c.op) && init[i].fault.committed ==> LeftAlone(init, i, c.op)))
  }

  // ---- What an attempt writes ------------------------------------------------------------------

  lemma BurnedKeepsFresh(db: Database, burned: nat, id: Attempt)
    requires Fresh(db, id)
    ensures Fresh(Burned(db, burned), id)
  {
  }

  /** A call that is not tracked writes no id. */
  lemma UntrackedWritesNoId(db: Database, op: Op, attempt: Attempt, other: Attempt)
    requires Supported(op) && !Tracked(op)
    ensures Do(db, op, attempt).0 == Do(db, op, other).0
  {
    hide ScanOf, EntriesAfter, RowsOf, Live, GetOf, CountOf, Where, OutsideScope, Deletes, OrdinalOf, TakenBy;
    if op.PutMany? {
      assert PutRows(db.state, op.scope, op.ns, [], attempt) == PutRows(db.state, op.scope, op.ns, [], other);
    }
  }

  lemma LeftKeepsFresh(db: Database, c: Try, id: Attempt)
    requires Supported(c.op) && Fresh(db, id) && (c.attempt == id && Commits(c.fault) ==> !Tracked(c.op))
    ensures Fresh(Left(db, c.op, c.attempt, c.fault), id)
  {
    hide Do, Fresh, Tracked;
    if Commits(c.fault) {
      var other := id + 1;
      if c.attempt == id {
        UntrackedWritesNoId(db, c.op, c.attempt, other);
        DoKeepsFresh(db, c.op, other, id);
      } else {
        DoKeepsFresh(db, c.op, c.attempt, id);
      }
    } else if !c.fault.MissingTables? {
      BurnedKeepsFresh(db, c.fault.burned, id);
    }
  }

  /** No row carries an id under which no tracked call has landed. */
  lemma {:induction false} UnlandedIsFresh(tries: seq<Try>, id: Attempt)
    requires TriesSupported(tries)
    requires forall i :: 0 <= i < |tries| && tries[i].attempt == id && Commits(tries[i].fault) ==> !Tracked(tries[i].op)
    ensures Fresh(TryRun(tries), id)
  {
    hide Fresh, Left, Tracked, Commits;
    if tries == [] {
      EmptyIsFresh(id);
    } else {
      UnlandedIsFresh(tries[..|tries| - 1], id);
      LeftKeepsFresh(TryRun(tries[..|tries| - 1]), tries[|tries| - 1], id);
    }
  }

  lemma PutForgesNothing(state: map<RowKey, StateRow>, scope: Bytes, ns: Bytes, pairs: seq<Pair>, attempt: Attempt,
                         id: Attempt)
    requires id != attempt
    ensures var after := PutRows(state, scope, ns, pairs, attempt);
            && (forall at <- after.Keys | after[at].lastAttempt == id :: at in state && state[at].lastAttempt == id)
            && (forall at <- after.Keys | after[at].drainedBy == Some(id) :: at in state && state[at] == after[at])
  {
    hide PutRows;
    var after := PutRows(state, scope, ns, pairs, attempt);
    forall at | at in after
      ensures after[at].lastAttempt == id ==> at in state && state[at].lastAttempt == id
      ensures after[at].drainedBy == Some(id) ==> at in state && state[at] == after[at]
    {
      PutRowsAt(state, scope, ns, pairs, attempt, at);
    }
  }

  lemma DoForgesNothing(db: Database, op: Op, attempt: Attempt, id: Attempt)
    requires Supported(op) && id != attempt
    ensures NoForgery(id, db, Do(db, op, attempt).0)
  {
    hide Where, PutRows, ScanOf, OrdinalOf, Deletes, TakenBy, Namespace, Live, GetOf, RowsOf, EntriesAfter;
    if op.PutMany? {
      PutForgesNothing(db.state, op.scope, op.ns, op.pairs, attempt, id);
    } else if op.ClearScope? {
      WhereSelects(db.log, LoggedOutOf(op.scope));
    }
  }

  lemma LeftForgesNothing(db: Database, c: Try, id: Attempt)
    requires Supported(c.op) && id != c.attempt
    ensures NoForgery(id, db, Left(db, c.op, c.attempt, c.fault))
  {
    hide Do;
    DoForgesNothing(db, c.op, c.attempt, id);
  }

  lemma ForgeryChain(id: Attempt, a: Database, b: Database, c: Database)
    requires NoForgery(id, a, b) && NoForgery(id, b, c)
    ensures NoForgery(id, a, c)
  {
  }

  lemma UntouchedChain(op: Op, a: Database, b: Database, c: Database)
    requires Untouched(op, a, b) && Untouched(op, b, c)
    ensures Untouched(op, a, c)
  {
    if op.Drain? {
      forall at: RowKey | at.scope == op.scope && at.ns == op.ns ensures SameRow(a.state, c.state, at) {
        assert SameRow(a.state, b.state, at) && SameRow(b.state, c.state, at);
      }
    }
  }

  lemma LeftAloneStep(tries: seq<Try>, i: nat, op: Op)
    requires TriesSupported(tries) && i < |tries| - 1 && LeftAlone(tries, i, op)
    ensures var init := tries[..|tries| - 1];
            TriesSupported(init) && LeftAlone(init, i, op) && Untouched(op, TryRun(init), TryRun(tries))
  {
    hide Untouched, TryRun;
    var init := tries[..|tries| - 1];
    assert tries[..|tries|] == tries;
    forall j | i < j < |init| ensures Untouched(op, TryRun(init[..j]), TryRun(init[..j + 1])) {
      assert init[..j] == tries[..j] && init[..j + 1] == tries[..j + 1];
    }
  }

  /** From an attempt on, as long as its rows are left alone, they are as it left them, and its id is nobody else's. */
  lemma {:induction false} StaysAsLeft(tries: seq<Try>, i: nat, op: Op, id: Attempt)
    requires TriesSupported(tries) && i < |tries| && LeftAlone(tries, i, op)
    requires forall j :: i < j < |tries| ==> tries[j].attempt != id
    ensures Untouched(op, TryRun(tries[..i + 1]), TryRun(tries)) && NoForgery(id, TryRun(tries[..i + 1]), TryRun(tries))
    decreases |tries|
  {
    hide Untouched, NoForgery, Left, LeftAlone;
    var k := |tries| - 1;
    if i == k {
      assert tries[..i + 1] == tries;
      NobodyElse(op, id, TryRun(tries));
    } else {
      var init := tries[..k];
      LeftAloneStep(tries, i, op);
      StaysAsLeft(init, i, op, id);
      assert init[..i + 1] == tries[..i + 1];
      LeftForgesNothing(TryRun(init), tries[k], id);
      ForgeryChain(id, TryRun(tries[..i + 1]), TryRun(init), TryRun(tries));
      UntouchedChain(op, TryRun(tries[..i + 1]), TryRun(init), TryRun(tries));
    }
  }

  /** The second attempt of a tracked call that landed changes nothing, and answers as the first would have. */
  lemma SecondAttemptOnlyFinds(tries: seq<Try>, c: Try) returns (i: nat)
    requires Orderly(tries + [c]) && Tracked(c.op) && HasLanded(tries, c.attempt)
    ensures i < |tries| && TriesSupported(tries) && TriesSupported(tries[..i])
    ensures tries[i].op == c.op && tries[i].attempt == c.attempt && Effective(tries[..i], tries[i])
    ensures Do(TryRun(tries), c.op, c.attempt) == (TryRun(tries), Do(TryRun(tries[..i]), c.op, c.attempt).1)
  {
    hide Do, Fresh, Untouched, NoForgery, StillLanded, Tracked, Supported;
    assert (tries + [c])[..|tries|] == tries && (tries + [c])[|tries|] == c;
    i :| 0 <= i < |tries| && tries[i].attempt == c.attempt && Commits(tries[i].fault);
    var first := TryRun(tries[..i]);
    assert tries[..i + 1][..i] == tries[..i] && tries[..i + 1][i] == tries[i];
    UnlandedIsFresh(tries[..i], c.attempt);
    StaysAsLeft(tries, i, c.op, c.attempt);
    UntouchedStillLanded(first, c.op, c.attempt, TryRun(tries));
    OnceExactlyWhenStillLanded(first, c.op, c.attempt, TryRun(tries));
  }

  // ---- One effect on the plain store -----------------------------------------------------------

  lemma MarkedByNothing(op: Op)
    ensures Marked([], op) == op
  {
    assert forall b: Bytes :: [] + b == b;
    assert forall at: RowKey :: Under([], at) == at;
  }

  lemma BurnKeepsSimulation(db: Database, burned: nat, own: Tables, ordinals: seq<int>)
    requires Simulates([], Plain(db), own, ordinals)
    ensures Simulates([], Plain(Burned(db, burned)), own, ordinals)
  {
    hide SameMap, SameQueues, Where, RenamedAll, Live, RowsOf, Numbers;
  }

  /** The plain store's answer, tombstones included where the answer counts. */
  ghost predicate AnswersAs(db: Database, op: Op, ordinals: seq<int>, reply: Reply, plain: Reply)
    requires Supported(op)
  {
    if Counts(op) && plain.Count? then reply == Count(plain.count + TombstonesRemoved(db, op))
    else SameReply(ordinals, reply, plain)
  }

  lemma EffectSimulates(db: Database, op: Op, attempt: Attempt, own: Tables, ordinals: seq<int>)
    requires Supported(op) && Fresh(db, attempt) && Simulates([], Plain(db), own, ordinals)
    ensures var (after, reply) := Do(db, op, attempt);
            var next := NextOrdinals(ordinals, op, Plain(after));
            && Simulates([], Plain(after), Step(own, OwnOp(ordinals, op)).0, next)
            && AnswersAs(db, op, next, reply, Step(own, OwnOp(ordinals, op)).1)
  {
    hide Do, Step, Fresh, Simulates, OwnOp, NextOrdinals, Plain, Marked, TombstonesRemoved;
    MarkedByNothing(op);
    DoRefinesStep(db, op, attempt);
    OwnStep([], Plain(db), own, ordinals, op);
  }

  // ---- Whole runs ------------------------------------------------------------------------------

  /** The ordinals the log handed out, in order. */
  ghost function OrdinalsOf(tries: seq<Try>): seq<int>
    requires TriesSupported(tries)
  {
    if tries == [] then []
    else
      var init, c := tries[..|tries| - 1], tries[|tries| - 1];
      if Effective(init, c) then NextOrdinals(OrdinalsOf(init), c.op, Plain(Do(TryRun(init), c.op, c.attempt).0))
      else OrdinalsOf(init)
  }

  /** The effects in the order they were committed, as the plain store is given them: the same but for log cursors. */
  ghost function Effects(tries: seq<Try>): seq<Op>
    requires TriesSupported(tries)
  {
    if tries == [] then []
    else
      var init, c := tries[..|tries| - 1], tries[|tries| - 1];
      Effects(init) + if Effective(init, c) then [OwnOp(OrdinalsOf(init), c.op)] else []
  }

  /** How many effects the attempts under one id have had. */
  function EffectCount(tries: seq<Try>, id: Attempt): nat {
    if tries == [] then 0
    else
      var init, c := tries[..|tries| - 1], tries[|tries| - 1];
      EffectCount(init, id) + if c.attempt == id && Effective(init, c) then 1 else 0
  }

  /** A tracked call has one effect if any of its attempts committed, and none otherwise. */
  lemma {:induction false} TrackedCallsTakeEffectOnce(tries: seq<Try>, id: Attempt)
    requires forall i :: 0 <= i < |tries| && tries[i].attempt == id ==> Tracked(tries[i].op)
    ensures EffectCount(tries, id) == if HasLanded(tries, id) then 1 else 0
  {
    hide Tracked, Commits;
    if tries != [] {
      var init, c := tries[..|tries| - 1], tries[|tries| - 1];
      TrackedCallsTakeEffectOnce(init, id);
      if HasLanded(init, id) {
        var i :| 0 <= i < |init| && init[i].attempt == id && Commits(init[i].fault);
        assert tries[i] == init[i];
      }
      assert tries[|tries| - 1] == c;
      assert forall i :: 0 <= i < |init| ==> tries[i] == init[i];
    }
  }

  /** An attempt that commits something new is the first of its id to write it. */
  lemma EffectiveIsFresh(tries: seq<Try>, c: Try)
    requires Orderly(tries + [c]) && Effective(tries, c)
    ensures TriesSupported(tries) && Supported(c.op) && Fresh(TryRun(tries), c.attempt)
  {
    hide Fresh, TryRun, Tracked, Supported, LeftAlone, Commits;
    var all := tries + [c];
    assert all[..|tries|] == tries && all[|tries|] == c;
    assert forall i :: 0 <= i < |tries| && tries[i].attempt == c.attempt ==> tries[i].op == c.op;
    UnlandedIsFresh(tries, c.attempt);
  }

  /** One more attempt, by what it does. */
  lemma OneMoreTry(tries: seq<Try>, c: Try)
    requires Orderly(tries + [c])
    ensures TriesSupported(tries) && Supported(c.op)
    ensures TryRun(tries + [c]) == Left(TryRun(tries), c.op, c.attempt, c.fault)
    ensures if Effective(tries, c)
            then && Effects(tries + [c]) == Effects(tries) + [OwnOp(OrdinalsOf(tries), c.op)]
                 && OrdinalsOf(tries + [c])
                    == NextOrdinals(OrdinalsOf(tries), c.op, Plain(Do(TryRun(tries), c.op, c.attempt).0))
            else Effects(tries + [c]) == Effects(tries) && OrdinalsOf(tries + [c]) == OrdinalsOf(tries)
  {
    hide Left, Do, Plain, OwnOp, NextOrdinals, Effective, Supported, LeftAlone;
    assert (tries + [c])[..|tries|] == tries && (tries + [c])[|tries|] == c;
    assert Effects(tries) + [] == Effects(tries);
  }

  /** The only database an attempt that commits nothing new leaves. */
  lemma NothingNew(tries: seq<Try>, c: Try) returns (burned: nat)
    requires Orderly(tries + [c]) && !Effective(tries, c)
    ensures TriesSupported(tries) && Supported(c.op)
    ensures Left(TryRun(tries), c.op, c.attempt, c.fault) == Burned(TryRun(tries), burned)
  {
    hide Do, TryRun, HasLanded, Tracked, Orderly, Supported;
    OneMoreTry(tries, c);
    burned := 0;
    if Commits(c.fault) {
      var _ := SecondAttemptOnlyFinds(tries, c);
    } else if !c.fault.MissingTables? {
      burned := c.fault.burned;
    }
  }

  lemma TryKeepsSimulation(tries: seq<Try>, c: Try)
    requires Orderly(tries + [c]) && TriesSupported(tries)
    requires Simulates([], Plain(TryRun(tries)), Run(Effects(tries)), OrdinalsOf(tries))
    ensures Simulates([], Plain(TryRun(tries + [c])), Run(Effects(tries + [c])), OrdinalsOf(tries + [c]))
  {
    hide Do, Step, Fresh, Simulates, Plain, OwnOp, NextOrdinals, Tracked, HasLanded, Orderly, Supported, TryRun,
      Effects, OrdinalsOf;
    var db, ops, ordinals := TryRun(tries), Effects(tries), OrdinalsOf(tries);
    OneMoreTry(tries, c);
    if Effective(tries, c) {
      EffectiveIsFresh(tries, c);
      EffectSimulates(db, c.op, c.attempt, Run(ops), ordinals);
      var op := OwnOp(ordinals, c.op);
      assert (ops + [op])[..|ops|] == ops;
    } else {
      var burned := NothingNew(tries, c);
      BurnKeepsSimulation(db, burned, Run(ops), ordinals);
    }
  }

  /**
   For every placement of failures and every interleaving of attempts: live rows, log and counters are those of
   the plain store after the effects in the order they were committed, log ordinals renamed in order.
   */
  lemma {:induction false} TryRunRefinesPlainRun(tries: seq<Try>)
    requires Orderly(tries)
    ensures Simulates([], Plain(TryRun(tries)), Run(Effects(tries)), OrdinalsOf(tries))
  {
    hide TryRun, Effects, OrdinalsOf, Simulates, LeftAlone, Supported;
    if tries == [] {
      NothingTried();
    } else {
      var init, c := tries[..|tries| - 1], tries[|tries| - 1];
      assert tries == init + [c];
      TryRunRefinesPlainRun(init);
      TryKeepsSimulation(init, c);
    }
  }

  lemma NothingTried()
    ensures Simulates([], Plain(TryRun([])), Run(Effects([])), OrdinalsOf([]))
  {
    hide Simulates, Plain;
    EmptyStoresAgree([]);
    EmptyIsPlain();
  }

  /**
   An answer, too, is the plain store's: at this point of the run if the attempt took effect, and otherwise at
   the point where the first attempt of the same call did.
   */
  lemma TriesAnswerAsThePlainStore(tries: seq<Try>, c: Try) returns (i: nat)
    requires Orderly(tries + [c]) && Commits(c.fault)
    ensures TriesSupported(tries) && i <= |tries| && TriesSupported(tries[..i]) && Supported(c.op)
    ensures i == |tries| <==> Effective(tries, c)
    ensures i < |tries| ==> tries[i].op == c.op && tries[i].attempt == c.attempt && Effective(tries[..i], tries[i])
    ensures var db := TryRun(tries[..i]);
            var next := NextOrdinals(OrdinalsOf(tries[..i]), c.op, Plain(Do(db, c.op, c.attempt).0));
            AnswersAs(db, c.op, next, Do(TryRun(tries), c.op, c.attempt).1,
                      Step(Run(Effects(tries[..i])), OwnOp(OrdinalsOf(tries[..i]), c.op)).1)
  {
    hide Do, Step, Fresh, Simulates, Plain, OwnOp, NextOrdinals, HasLanded, Tracked, AnswersAs, TryRun, Effects,
      OrdinalsOf;
    assert (tries + [c])[..|tries|] == tries && (tries + [c])[|tries|] == c;
    if Effective(tries, c) {
      i := |tries|;
      assert tries[..i] == tries;
      EffectiveIsFresh(tries, c);
    } else {
      i := SecondAttemptOnlyFinds(tries, c);
      assert tries == tries[..i] + [tries[i]] + tries[i + 1..];
      PrefixIsOrderly(tries, i + 1);
      assert tries[..i + 1] == tries[..i] + [tries[i]];
      EffectiveIsFresh(tries[..i], tries[i]);
    }
    PrefixIsOrderly(tries, i);
    TryRunRefinesPlainRun(tries[..i]);
    EffectSimulates(TryRun(tries[..i]), c.op, c.attempt, Run(Effects(tries[..i])), OrdinalsOf(tries[..i]));
  }

  lemma {:induction false} PrefixIsOrderly(tries: seq<Try>, n: nat)
    requires Orderly(tries) && n <= |tries|
    ensures Orderly(tries[..n])
    decreases |tries|
  {
    hide LeftAlone, Supported;
    if n < |tries| {
      PrefixIsOrderly(tries[..|tries| - 1], n);
      assert tries[..|tries| - 1][..n] == tries[..n];
    } else {
      assert tries[..n] == tries;
    }
  }
}
