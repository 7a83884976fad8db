/**
 The catalog-query executor: reading and closing one provider resource. Each call's
 circumstances are a parameter; what reaches the provider and the output is recorded as a trace.
 */
module QueryExecutor {
  import opened Common

  const POSITION_LIMIT := 0x8000_0000_0000_0000

  /** What the checks on a result batch find; `affected` is the first row's count in a command result. */
  datatype Batch = Batch(sameSchema: bool, wellFormed: bool, rows: nat, affected: Option<int>, inProfiles: bool,
                         admitted: bool)

  datatype Answer = ReadFailed | EndOfStream | Rows(batch: Batch)

  datatype Reason = Eos | Error | Cancelled

  datatype Event =
    | Read(position: nat)
    | Emit(position: nat, batch: Batch)
    | Close(reason: Reason, ok: bool)
    | Finish

  /**
   One call: whether the execution ticket opens for this owner, and then whether the worker still has a
   provider; whether the agreement still stands, the ticket has expired or dynamic filters were passed; what
   the provider answers to a read, to a close at the end or on cancel, and to a close after an error; and
   whether the output collector fails.
   */
  datatype Turn = Turn(opens: bool, provider: bool, current: bool, expired: bool, dynamic: bool, answer: Answer,
                       closes: bool, errorCloses: bool, outputFails: bool)

  datatype Outcome = Emitted | Finished | Stopped | Raised

  datatype Stream = Stream(position: nat, closed: bool, trace: seq<Event>)

  const OPENED := Stream(0, false, [])

  // ---- One call --------------------------------------------------------------------------------

  /** A command result is one row at position 0 whose count is not negative. */
  predicate IsCompletion(position: nat, b: Batch) {
    position == 0 && b.rows == 1 && (b.affected.Some? ==> b.affected.value >= 0)
  }

  predicate Acceptable(command: bool, position: nat, b: Batch) {
    b.sameSchema && b.wellFormed && (command ==> IsCompletion(position, b)) && b.inProfiles && b.admitted
  }

  /** The guarded part of `process`: what it does, and None when it raises. */
  function Guarded(position: nat, command: bool, turn: Turn): (seq<Event>, Option<Outcome>) {
    if !turn.current || turn.expired || turn.dynamic then ([], None)
    else
      match turn.answer
      case ReadFailed => ([Read(position)], None)
      case EndOfStream =>
        if command && position != 1 then ([Read(position)], None)
        else if !turn.closes then ([Read(position), Close(Eos, false)], None)
        else if turn.outputFails then ([Read(position), Close(Eos, true)], None)
        else ([Read(position), Close(Eos, true), Finish], Some(Finished))
      case Rows(b) =>
        if !Acceptable(command, position, b) || turn.outputFails then ([Read(position)], None)
        else ([Read(position), Emit(position, b)], Some(Emitted))
  }

  function ProcessStep(s: Stream, command: bool, turn: Turn): (Stream, Outcome) {
    if s.position >= POSITION_LIMIT then (s, Raised)
    else if s.closed then (s.(trace := s.trace + [Finish]), Finished)
    else if !turn.opens || !turn.provider then (s, Raised)
    else
      var (events, outcome) := Guarded(s.position, command, turn);
      match outcome
      case Some(Emitted) => (Stream(s.position + 1, false, s.trace + events), Emitted)
      case Some(_) => (Stream(s.position, true, s.trace + events), Finished)
      case None => (Stream(s.position, true, s.trace + events + [Close(Error, turn.errorCloses)]), Raised)
  }

  /** A cancel whose close fails leaves the stream open. */
  function CancelStep(s: Stream, turn: Turn): (Stream, Outcome) {
    if s.closed then (s, Stopped)
    else if !turn.opens || !turn.provider then (s, Raised)
    else if !turn.closes then (s.(trace := s.trace + [Close(Cancelled, false)]), Raised)
    else (Stream(s.position, true, s.trace + [Close(Cancelled, true)]), Stopped)
  }

  /**
   What one call of `process` does, outright. A batch is put out exactly when the stream is open, the ticket opens,
   a provider is there, the call is current, unexpired and without dynamic filters, the output works, and the batch
   is of the agreed schema, well formed, within the profiles and admitted, for a command also one row at position 0
   whose count is not negative; it is that very batch, at the position read. The stream finishes exactly when it was
   closed or its end is read, permitted, closed and put out. Otherwise the call raises, and where the ticket opened
   and a provider is there it leaves the stream closed, with a close after the error last.
   */
  ghost predicate ProcessLaw(before: Stream, after: Stream, command: bool, turn: Turn, outcome: Outcome) {
    var n := before.position;
    var live := n < POSITION_LIMIT && !before.closed && turn.opens && turn.provider;
    var asked := live && turn.current && !turn.expired && !turn.dynamic;
    var ends := asked && turn.answer.EndOfStream? && (command ==> n == 1);
    match outcome
    case Emitted =>
      && asked && turn.answer.Rows? && !turn.outputFails
      && var b := turn.answer.batch;
         && b.sameSchema && b.wellFormed && b.inProfiles && b.admitted
         && (command ==> n == 0 && b.rows == 1 && (b.affected.Some? ==> b.affected.value >= 0))
         && after == Stream(n + 1, false, before.trace + [Read(n), Emit(n, b)])
    case Finished =>
      && n < POSITION_LIMIT && after.position == n && after.closed
      && if before.closed then after.trace == before.trace + [Finish]
         else ends && turn.closes && !turn.outputFails
              && after.trace == before.trace + [Read(n), Close(Eos, true), Finish]
    case Raised =>
      && !(n < POSITION_LIMIT && before.closed) && !(ends && turn.closes && !turn.outputFails)
      && (asked && turn.answer.Rows? && !turn.outputFails ==>
            var b := turn.answer.batch;
            || !b.sameSchema || !b.wellFormed || !b.inProfiles || !b.admitted
            || (command && (n != 0 || b.rows != 1 || (b.affected.Some? && b.affected.value < 0))))
      && if !live then after == before
         else
           var tried := if !asked then [] else if ends then [Read(n), Close(Eos, turn.closes)] else [Read(n)];
           after == Stream(n, true, before.trace + (tried + [Close(Error, turn.errorCloses)]))
    case Stopped => false
  }

  lemma ProcessObeysLaw(s: Stream, command: bool, turn: Turn)
    ensures ProcessLaw(s, ProcessStep(s, command, turn).0, command, turn, ProcessStep(s, command, turn).1)
  {
    if s.position < POSITION_LIMIT && !s.closed && turn.opens && turn.provider {
      var (events, outcome) := Guarded(s.position, command, turn);
      assert s.trace + events + [Close(Error, turn.errorCloses)]
             == s.trace + (events + [Close(Error, turn.errorCloses)]);
    }
  }

  /**
   What one cancel does: it asks for a close if there is one to ask for, and the stream is closed if that
   succeeds.
   */
  ghost predicate CancelLaw(before: Stream, after: Stream, turn: Turn, outcome: Outcome) {
    if before.closed then outcome == Stopped && after == before
    else if turn.opens && turn.provider then
      && outcome == (if turn.closes then Stopped else Raised)
      && after == Stream(before.position, turn.closes, before.trace + [Close(Cancelled, turn.closes)])
    else outcome == Raised && after == before
  }

  lemma CancelObeysLaw(s: Stream, turn: Turn)
    ensures CancelLaw(s, CancelStep(s, turn).0, turn, CancelStep(s, turn).1)
  {
  }

  class QueryStream {
    const command: bool
    var position: nat
    var closed: bool
    var trace: seq<Event>

    ghost function View(): Stream
      reads this
    {
      Stream(position, closed, trace)
    }

    constructor (command: bool)
      ensures View() == OPENED && this.command == command
    {
      this.command := command;
      position, closed, trace := 0, false, [];
    }

    method Log(e: Event)
      modifies this`trace
      ensures trace == old(trace) + [e]
    {
      trace := trace + [e];
    }

    /** The `try` body; false when it raises. */
    method TryProcess(turn: Turn) returns (outcome: Option<Outcome>)
      modifies this
      ensures var (events, expected) := Guarded(old(position), command, turn);
              && outcome == expected && trace == old(trace) + events
              && position == old(position) + (if expected == Some(Emitted) then 1 else 0)
              && (outcome.Some? ==> closed == (old(closed) || outcome == Some(Finished)))
    {
      if !turn.current {
        return None;
      }
      if turn.expired {
        return None;
      }
      if turn.dynamic {
        return None;
      }
      Log(Read(position));
      match turn.answer
      case ReadFailed =>
        return None;
      case EndOfStream =>
        if command && position != 1 {
          return None;
        }
        Log(Close(Eos, turn.closes));
        if !turn.closes {
          return None;
        }
        closed := true;
        if turn.outputFails {
          return None;
        }
        Log(Finish);
        return Some(Finished);
      case Rows(b) =>
        if !b.sameSchema || !b.wellFormed {
          return None;
        }
        if command {
          if position != 0 || b.rows != 1 {
            return None;
          }
          if b.affected.Some? && b.affected.value < 0 {
            return None;
          }
        }
        if !b.inProfiles || !b.admitted || turn.outputFails {
          return None;
        }
        Log(Emit(position, b));
        position := position + 1;
        return Some(Emitted);
    }

    method Process(turn: Turn) returns (outcome: Outcome)
      modifies this
      ensures (View(), outcome) == ProcessStep(old(View()), command, turn)
      ensures ProcessLaw(old(View()), View(), command, turn, outcome)
    {
      ProcessObeysLaw(View(), command, turn);
      hide ProcessLaw;
      if position >= POSITION_LIMIT {
        return Raised;
      }
      if closed {
        Log(Finish);
        return Finished;
      }
      if !turn.opens {
        return Raised;
      }
      if !turn.provider {
        return Raised;
      }
      var done := TryProcess(turn);
      if done.None? {
        closed := true;
        Log(Close(Error, turn.errorCloses));
        return Raised;
      }
      return done.value;
    }

    method OnCancel(turn: Turn) returns (outcome: Outcome)
      modifies this
      ensures (View(), outcome) == CancelStep(old(View()), turn)
      ensures CancelLaw(old(View()), View(), turn, outcome)
    {
      CancelObeysLaw(View(), turn);
      hide CancelLaw;
      if closed {
        return Stopped;
      }
      if !turn.opens {
        return Raised;
      }
      if !turn.provider {
        return Raised;
      }
      Log(Close(Cancelled, turn.closes));
      if !turn.closes {
        return Raised;
      }
      closed := true;
      return Stopped;
    }
  }

  // ---- Runs ------------------------------------------------------------------------------------

  datatype Call = Process(turn: Turn) | Cancel(turn: Turn)

  function StepOf(s: Stream, command: bool, call: Call): (Stream, Outcome) {
    match call
    case Process(turn) => ProcessStep(s, command, turn)
    case Cancel(turn) => CancelStep(s, turn)
  }

  function RunFrom(s: Stream, command: bool, calls: seq<Call>): Stream {
    if calls == [] then s else StepOf(RunFrom(s, command, calls[..|calls| - 1]), command, calls[|calls| - 1]).0
  }

  function Run(command: bool, calls: seq<Call>): Stream { RunFrom(OPENED, command, calls) }

  /** Positions read, in order. */
  function ReadsIn(trace: seq<Event>): seq<nat> {
    if trace == [] then []
    else
      var last := trace[|trace| - 1];
      ReadsIn(trace[..|trace| - 1]) + if last.Read? then [last.position] else []
  }

  function EmitsIn(trace: seq<Event>): seq<Event> {
    if trace == [] then []
    else
      var last := trace[|trace| - 1];
      EmitsIn(trace[..|trace| - 1]) + if last.Emit? then [last] else []
  }

  function UpTo(n: nat): (r: seq<nat>)
    ensures |r| == n
  {
    seq(n, i requires 0 <= i < n => i)
  }

  ghost predicate HasClose(trace: seq<Event>) { exists i :: 0 <= i < |trace| && trace[i].Close? }

  ghost predicate ReachedEos(trace: seq<Event>) { Close(Eos, true) in trace }

  /** Each batch put out was read just before, at its own position. */
  ghost predicate EmitsFollowReads(trace: seq<Event>) {
    forall i :: 0 <= i < |trace| && trace[i].Emit? ==> i > 0 && trace[i - 1] == Read(trace[i].position)
  }

  /** Positions are read in order, once each; the last read of a closed stream may have put nothing out. */
  ghost predicate ReadsInOrder(s: Stream) {
    var seen := ReadsIn(s.trace);
    seen == UpTo(s.position) || (s.closed && seen == UpTo(s.position + 1))
  }

  /** One acceptable batch per position was put out, each right after its read. */
  ghost predicate EmitsInOrder(command: bool, s: Stream) {
    var emits := EmitsIn(s.trace);
    && |emits| == s.position
    && (forall i :: 0 <= i < |emits| ==>
        emits[i].Emit? && emits[i].position == i && Acceptable(command, i, emits[i].batch))
    && EmitsFollowReads(s.trace)
    && (command ==> s.position <= 1)
  }

  /** A closed stream has called close; an open one has at most tried to cancel. */
  ghost predicate ClosesInOrder(command: bool, s: Stream) {
    && (s.closed ==> HasClose(s.trace))
    && (!s.closed ==> forall i :: 0 <= i < |s.trace| ==>
          !s.trace[i].Finish? && (s.trace[i].Close? ==> s.trace[i] == Close(Cancelled, false)))
    && (ReachedEos(s.trace) ==> s.closed && (command ==> s.position == 1))
  }

  ghost predicate Inv(command: bool, s: Stream) {
    ReadsInOrder(s) && EmitsInOrder(command, s) && ClosesInOrder(command, s)
  }

  lemma {:induction false} ReadsInAppend(trace: seq<Event>, more: seq<Event>)
    ensures ReadsIn(trace + more) == ReadsIn(trace) + ReadsIn(more)
    ensures EmitsIn(trace + more) == EmitsIn(trace) + EmitsIn(more)
  {
    hide ReadsIn, EmitsIn;
    if more == [] {
      assert trace + more == trace;
      NothingIn();
    } else {
      var init, last := more[..|more| - 1], more[|more| - 1];
      ReadsInAppend(trace, init);
      Regrouped(trace, more);
      LastEvent(trace + init, last);
      LastEvent(init, last);
    }
  }

  lemma Regrouped(trace: seq<Event>, more: seq<Event>)
    requires more != []
    ensures trace + more == (trace + more[..|more| - 1]) + [more[|more| - 1]]
            && more == more[..|more| - 1] + [more[|more| - 1]]
  {
  }

  lemma NothingIn()
    ensures ReadsIn([]) == [] && EmitsIn([]) == []
  {
  }

  lemma LastEvent(trace: seq<Event>, e: Event)
    ensures ReadsIn(trace + [e]) == ReadsIn(trace) + if e.Read? then [e.position] else []
    ensures EmitsIn(trace + [e]) == EmitsIn(trace) + if e.Emit? then [e] else []
  {
    assert (trace + [e])[..|trace|] == trace;
  }

  /** What the guarded part can add to a trace. */
  lemma GuardedEvents(position: nat, command: bool, turn: Turn)
    ensures var (events, outcome) := Guarded(position, command, turn);
            && (events == [] ==> ReadsIn(events) == [])
            && (events != [] ==> ReadsIn(events) == [position])
            && EmitsFollowReads(events)
            && (Close(Eos, true) in events ==> command ==> position == 1)
            && match outcome
               case Some(Emitted) =>
                 turn.answer.Rows? && Acceptable(command, position, turn.answer.batch)
                 && events == [Read(position), Emit(position, turn.answer.batch)]
                 && EmitsIn(events) == [Emit(position, turn.answer.batch)]
               case Some(_) => events == [Read(position), Close(Eos, true), Finish] && EmitsIn(events) == []
               case None => EmitsIn(events) == []
  {
    var (events, outcome) := Guarded(position, command, turn);
    assert ReadsIn([]) == [] && EmitsIn([]) == [];
    if |events| >= 1 {
      assert events[..1][..0] == [];
      assert ReadsIn(events[..1]) == [position] && EmitsIn(events[..1]) == [];
    }
    if |events| >= 2 {
      assert events[..2][..1] == events[..1];
    }
    if |events| == 3 {
      assert events[..3] == events;
    }
    assert events[..|events|] == events;
  }

  lemma EmitsFollowReadsAppend(trace: seq<Event>, more: seq<Event>)
    requires EmitsFollowReads(trace) && EmitsFollowReads(more)
    ensures EmitsFollowReads(trace + more)
  {
    var all := trace + more;
    forall i | 0 <= i < |all| && all[i].Emit? ensures i > 0 && all[i - 1] == Read(all[i].position) {
      if i >= |trace| {
        assert more[i - |trace|].Emit?;
      }
    }
  }

  lemma OneEvent(e: Event)
    ensures ReadsIn([e]) == (if e.Read? then [e.position] else []) && EmitsIn([e]) == if e.Emit? then [e] else []
  {
    assert [e][..0] == [];
  }

  /** Appending a close or a finish reads and emits nothing. */
  lemma QuietEvent(trace: seq<Event>, e: Event)
    requires e.Close? || e.Finish?
    ensures ReadsIn(trace + [e]) == ReadsIn(trace) && EmitsIn(trace + [e]) == EmitsIn(trace)
    ensures EmitsFollowReads(trace) ==> EmitsFollowReads(trace + [e])
    ensures e.Close? || HasClose(trace) ==> HasClose(trace + [e])
  {
    ReadsInAppend(trace, [e]);
    OneEvent(e);
    assert (trace + [e])[|trace|] == e;
    if HasClose(trace) {
      var i :| 0 <= i < |trace| && trace[i].Close?;
      assert (trace + [e])[i].Close?;
    }
  }

  // ---- What every run keeps --------------------------------------------------------------------

  lemma ReadAndEmit(position: nat, b: Batch)
    ensures var events := [Read(position), Emit(position, b)];
            ReadsIn(events) == [position] && EmitsIn(events) == [Emit(position, b)] && EmitsFollowReads(events)
  {
    var events := [Read(position), Emit(position, b)];
    assert events == [Read(position)] + [Emit(position, b)];
    ReadsInAppend([Read(position)], [Emit(position, b)]);
    OneEvent(Read(position));
    OneEvent(Emit(position, b));
  }

  lemma EmittedReads(s: Stream, b: Batch)
    requires ReadsInOrder(s) && !s.closed
    ensures ReadsInOrder(Stream(s.position + 1, false, s.trace + [Read(s.position), Emit(s.position, b)]))
  {
    hide ReadsIn;
    ReadAndEmit(s.position, b);
    ReadsInAppend(s.trace, [Read(s.position), Emit(s.position, b)]);
    assert UpTo(s.position + 1) == UpTo(s.position) + [s.position];
  }

  lemma EmittedEmits(s: Stream, command: bool, b: Batch)
    requires EmitsInOrder(command, s) && Acceptable(command, s.position, b)
    ensures EmitsInOrder(command, Stream(s.position + 1, false, s.trace + [Read(s.position), Emit(s.position, b)]))
  {
    if command {
      AcceptableCommandIsFirst(s.position, b);
    }
    hide Acceptable, EmitsIn, EmitsFollowReads;
    ReadAndEmit(s.position, b);
    ReadsInAppend(s.trace, [Read(s.position), Emit(s.position, b)]);
    EmitsFollowReadsAppend(s.trace, [Read(s.position), Emit(s.position, b)]);
  }

  lemma EmittedCloses(s: Stream, command: bool, b: Batch)
    requires ClosesInOrder(command, s) && !s.closed
    ensures ClosesInOrder(command, Stream(s.position + 1, false, s.trace + [Read(s.position), Emit(s.position, b)]))
  {
    var all := s.trace + [Read(s.position), Emit(s.position, b)];
    assert forall i :: 0 <= i < |all| ==>
           all[i] == if i < |s.trace| then s.trace[i] else [Read(s.position), Emit(s.position, b)][i - |s.trace|];
  }

  lemma EmittedKeepsInv(s: Stream, command: bool, b: Batch)
    requires Inv(command, s) && !s.closed && Acceptable(command, s.position, b)
    ensures Inv(command, Stream(s.position + 1, false, s.trace + [Read(s.position), Emit(s.position, b)]))
  {
    hide Acceptable, ReadsInOrder, EmitsInOrder, ClosesInOrder;
    EmittedReads(s, b);
    EmittedEmits(s, command, b);
    EmittedCloses(s, command, b);
  }

  lemma AcceptableCommandIsFirst(position: nat, b: Batch)
    requires Acceptable(true, position, b)
    ensures position == 0 && b.rows == 1 && (b.affected.Some? ==> b.affected.value >= 0)
  {
  }

  /** Ending a stream: at most one more read, then a close. */
  lemma ClosingKeepsInv(s: Stream, command: bool, events: seq<Event>)
    requires Inv(command, s) && !s.closed
    requires ReadsIn(events) == [] || ReadsIn(events) == [s.position]
    requires EmitsIn(events) == [] && EmitsFollowReads(events)
    requires Close(Eos, true) in events ==> command ==> s.position == 1
    requires HasClose(events)
    ensures Inv(command, Stream(s.position, true, s.trace + events))
  {
    hide Acceptable, ReadsIn, EmitsIn;
    ReadsInAppend(s.trace, events);
    EmitsFollowReadsAppend(s.trace, events);
    assert UpTo(s.position + 1) == UpTo(s.position) + [s.position];
    var i :| 0 <= i < |events| && events[i].Close?;
    assert (s.trace + events)[|s.trace| + i].Close?;
  }

  lemma GuardedKeepsInv(s: Stream, command: bool, turn: Turn)
    requires Inv(command, s) && !s.closed && turn.opens && turn.provider && s.position < POSITION_LIMIT
    ensures Inv(command, ProcessStep(s, command, turn).0)
  {
    hide Inv, EmitsFollowReads, Guarded, ReadsIn, EmitsIn, Acceptable;
    var (events, outcome) := Guarded(s.position, command, turn);
    GuardedEvents(s.position, command, turn);
    if outcome == Some(Emitted) {
      EmittedKeepsInv(s, command, turn.answer.batch);
    } else if outcome.Some? {
      assert events[1].Close?;
      ClosingKeepsInv(s, command, events);
    } else {
      var last := Close(Error, turn.errorCloses);
      QuietEvent(events, last);
      assert s.trace + events + [last] == s.trace + (events + [last]);
      ClosingKeepsInv(s, command, events + [last]);
    }
  }

  lemma ProcessKeepsInv(s: Stream, command: bool, turn: Turn)
    requires Inv(command, s)
    ensures Inv(command, ProcessStep(s, command, turn).0)
  {
    hide Inv, Guarded;
    if s.position < POSITION_LIMIT {
      if s.closed {
        FinishKeepsInv(s, command);
      } else if turn.opens && turn.provider {
        GuardedKeepsInv(s, command, turn);
      }
    }
  }

  lemma FinishKeepsInv(s: Stream, command: bool)
    requires Inv(command, s) && s.closed
    ensures Inv(command, s.(trace := s.trace + [Finish]))
  {
    hide Acceptable, ReadsIn, EmitsIn, EmitsFollowReads;
    QuietEvent(s.trace, Finish);
  }

  lemma CancelKeepsInv(s: Stream, command: bool, turn: Turn)
    requires Inv(command, s)
    ensures Inv(command, CancelStep(s, turn).0)
  {
    hide Acceptable, ReadsIn, EmitsIn, EmitsFollowReads;
    QuietEvent(s.trace, Close(Cancelled, turn.closes));
  }

  /**
   Over every run: positions 0, 1, 2, ... are read once each; what is put out is exactly one acceptable batch
   per position, each right after its read; a closed stream has called close; end of stream was reached only
   with the stream closed, and for a command only after its one completion row.
   */
  lemma {:induction false} RunKeepsInv(command: bool, calls: seq<Call>)
    ensures Inv(command, Run(command, calls))
  {
    hide Inv, ProcessStep, CancelStep;
    if calls == [] {
      OpenedIsInv(command);
    } else {
      var init := calls[..|calls| - 1];
      RunKeepsInv(command, init);
      match calls[|calls| - 1]
      case Process(turn) => ProcessKeepsInv(Run(command, init), command, turn);
      case Cancel(turn) => CancelKeepsInv(Run(command, init), command, turn);
    }
  }

  lemma OpenedIsInv(command: bool)
    ensures Inv(command, OPENED)
  {
    assert UpTo(0) == [];
  }

  /** A command stream that reached its end put out exactly one batch, of one row. */
  lemma CommandEmitsOneRow(calls: seq<Call>)
    requires ReachedEos(Run(true, calls).trace)
    ensures var emits := EmitsIn(Run(true, calls).trace);
            |emits| == 1 && emits[0].Emit? && emits[0].position == 0 && emits[0].batch.rows == 1
            && (emits[0].batch.affected.Some? ==> emits[0].batch.affected.value >= 0)
  {
    RunKeepsInv(true, calls);
    AcceptableCommandIsFirst(0, EmitsIn(Run(true, calls).trace)[0].batch);
  }

  // ---- A result served to its end --------------------------------------------------------------

  /** Nothing but the provider's answer is in the way of the call. */
  predicate Smooth(turn: Turn) {
    turn.opens && turn.provider && turn.current && !turn.expired && !turn.dynamic && turn.closes && !turn.outputFails
  }

  predicate Sound(b: Batch) { b.sameSchema && b.wellFormed && b.inProfiles && b.admitted }

  /** The provider answers the reads with these batches, and then with the end. */
  predicate Serves(command: bool, turns: seq<Turn>, batches: seq<Batch>) {
    && |turns| == |batches| + 1 <= POSITION_LIMIT
    && (forall i :: 0 <= i < |turns| ==> Smooth(turns[i]))
    && (forall i :: 0 <= i < |batches| ==> Sound(batches[i]) && turns[i].answer == Rows(batches[i]))
    && turns[|batches|].answer == EndOfStream
    && (command ==> |batches| == 1 && batches[0].rows == 1
                    && (batches[0].affected.Some? ==> batches[0].affected.value >= 0))
  }

  function Calls(turns: seq<Turn>): seq<Call> { seq(|turns|, i requires 0 <= i < |turns| => Process(turns[i])) }

  function Emissions(batches: seq<Batch>): seq<Event> {
    seq(|batches|, i requires 0 <= i < |batches| => Emit(i, batches[i]))
  }

  lemma CallsOfPrefix(turns: seq<Turn>, n: nat)
    requires n < |turns|
    ensures Calls(turns[..n + 1]) == Calls(turns[..n]) + [Process(turns[n])]
  {
  }

  lemma {:induction false} ServedSoFar(command: bool, turns: seq<Turn>, batches: seq<Batch>, n: nat)
    requires Serves(command, turns, batches) && n <= |batches|
    ensures var s := Run(command, Calls(turns[..n]));
            s.position == n && !s.closed && EmitsIn(s.trace) == Emissions(batches[..n])
  {
    hide EmitsIn, ReadsIn;
    if n == 0 {
      assert Calls(turns[..0]) == [] && Emissions(batches[..0]) == [];
      NothingIn();
    } else {
      var k := n - 1;
      ServedSoFar(command, turns, batches, k);
      CallsOfPrefix(turns, k);
      assert (Calls(turns[..k]) + [Process(turns[k])])[..k] == Calls(turns[..k]);
      var s := Run(command, Calls(turns[..k]));
      ReadAndEmit(k, batches[k]);
      ReadsInAppend(s.trace, [Read(k), Emit(k, batches[k])]);
      assert Emissions(batches[..n]) == Emissions(batches[..k]) + [Emit(k, batches[k])];
    }
  }

  /**
   Whatever number of batches a provider serves before its end, a command's being one: exactly they are put out, in
   order, and the stream is closed at its end and finishes.
   */
  lemma ServedToTheEnd(command: bool, turns: seq<Turn>, batches: seq<Batch>)
    requires Serves(command, turns, batches)
    ensures var s := Run(command, Calls(turns));
            && s.position == |batches| && s.closed && EmitsIn(s.trace) == Emissions(batches)
            && exists before :: s.trace == before + [Read(|batches|), Close(Eos, true), Finish]
  {
    hide EmitsIn, ReadsIn;
    var n := |batches|;
    ServedSoFar(command, turns, batches, n);
    CallsOfPrefix(turns, n);
    assert turns[..n + 1] == turns && batches[..n] == batches;
    assert (Calls(turns[..n]) + [Process(turns[n])])[..n] == Calls(turns[..n]);
    var before := Run(command, Calls(turns[..n])).trace;
    var end := [Read(n), Close(Eos, true), Finish];
    ReadsInAppend(before, end);
    GuardedEvents(n, command, turns[n]);
    assert before + end == Run(command, Calls(turns)).trace;
  }

  function ProcessCount(calls: seq<Call>): nat {
    if calls == [] then 0 else ProcessCount(calls[..|calls| - 1]) + if calls[|calls| - 1].Process? then 1 else 0
  }

  /** After a stream is closed nothing is read, put out or closed again: further calls only finish. */
  lemma {:induction false} ClosedStaysClosed(s: Stream, command: bool, calls: seq<Call>)
    requires s.closed && s.position < POSITION_LIMIT
    ensures RunFrom(s, command, calls)
            == s.(trace := s.trace + seq(ProcessCount(calls), i requires 0 <= i < ProcessCount(calls) => Finish))
  {
    if calls != [] {
      ClosedStaysClosed(s, command, calls[..|calls| - 1]);
    }
  }

  /** The call failed with the execution ticket open. */
  ghost predicate FailedOpen(command: bool, before: Stream, call: Call) {
    && (call.Process? ==> before.position < POSITION_LIMIT) && !before.closed && call.turn.opens
    && StepOf(before, command, call).1.Raised?
  }

  /**
   A call that fails with the ticket open calls close exactly when the worker still has a provider: without
   one it leaves the stream as it was, neither closed nor read.
   */
  lemma FailureClosesExactlyWithProvider(s: Stream, command: bool, call: Call)
    requires FailedOpen(command, s, call)
    ensures var after := StepOf(s, command, call).0;
            && s.trace <= after.trace
            && (HasClose(after.trace[|s.trace|..]) <==> call.turn.provider)
            && (!call.turn.provider ==> after == s)
            && (call.turn.provider && call.Process? ==> after.closed)
  {
    hide Guarded;
    var after := StepOf(s, command, call).0;
    TraceGrows(s, command, call);
    var added := after.trace[|s.trace|..];
    if call.turn.provider {
      assert after.trace[|after.trace| - 1].Close?;
      assert added[|added| - 1].Close?;
    }
  }

  /**
   Such failures happen in every open stream: with the ticket open and no provider each call raises and closes
   nothing.
   */
  lemma NoProviderNoClose(s: Stream, command: bool, turn: Turn)
    requires !s.closed && turn.opens && !turn.provider && s.position < POSITION_LIMIT
    ensures FailedOpen(command, s, Process(turn)) && FailedOpen(command, s, Cancel(turn))
    ensures ProcessStep(s, command, turn).0 == s && CancelStep(s, turn).0 == s
  {
  }

  lemma {:induction false} CloseIsKept(s: Stream, command: bool, calls: seq<Call>)
    requires HasClose(s.trace)
    ensures HasClose(RunFrom(s, command, calls).trace)
  {
    if calls != [] {
      var init := calls[..|calls| - 1];
      CloseIsKept(s, command, init);
      var before := RunFrom(s, command, init).trace;
      var i :| 0 <= i < |before| && before[i].Close?;
      TraceGrows(RunFrom(s, command, init), command, calls[|calls| - 1]);
      assert RunFrom(s, command, calls).trace[i].Close?;
    }
  }

  lemma TraceGrows(s: Stream, command: bool, call: Call)
    ensures s.trace <= StepOf(s, command, call).0.trace
  {
    hide Guarded;
  }

  lemma {:induction false} RunSplits(s: Stream, command: bool, before: seq<Call>, after: seq<Call>)
    ensures RunFrom(s, command, before + after) == RunFrom(RunFrom(s, command, before), command, after)
  {
    if after == [] {
      assert before + after == before;
    } else {
      RunSplits(s, command, before, after[..|after| - 1]);
      assert (before + after)[..|before + after| - 1] == before + after[..|after| - 1];
    }
  }

  /** Every run that reaches its end, or in which a call fails with the ticket open and a provider, has called close. */
  lemma EndedRunsHaveClosed(command: bool, before: seq<Call>, call: Call, after: seq<Call>)
    ensures ReachedEos(Run(command, before).trace)
            || (FailedOpen(command, Run(command, before), call) && call.turn.provider) ==>
              HasClose(Run(command, before + [call] + after).trace)
  {
    hide StepOf, FailedOpen;
    var s := Run(command, before);
    RunSplits(OPENED, command, before + [call], after);
    RunSplits(OPENED, command, before, [call]);
    assert RunFrom(s, command, [call]) == StepOf(s, command, call).0 by {
      assert [call][..0] == [] && RunFrom(s, command, []) == s;
    }
    if ReachedEos(s.trace) {
      RunKeepsInv(command, before);
      CloseIsKept(s, command, [call]);
      CloseIsKept(RunFrom(s, command, [call]), command, after);
    } else if FailedOpen(command, s, call) && call.turn.provider {
      FailureClosesExactlyWithProvider(s, command, call);
      var added := StepOf(s, command, call).0.trace[|s.trace|..];
      var i :| 0 <= i < |added| && added[i].Close?;
      assert StepOf(s, command, call).0.trace[|s.trace| + i].Close?;
      CloseIsKept(RunFrom(s, command, [call]), command, after);
    }
  }
}
