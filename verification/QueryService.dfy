/**
 The query service as a whole: any callers prepare, release, start, read and cancel in any order, and a log
 records what the provider is asked for. No prepared query and no execution is lost track of.
 */
module QueryService {
  import opened Common
  import opened Bytes
  import opened QueryTicket
  import X = QueryExecutor

  // ---- The service -----------------------------------------------------------------------------

  /** Who calls, by the authenticated scope, and under which agreement. */
  datatype Caller = Caller(owner: Bytes, capability: Bytes)

  /** What the provider is asked to do, for which owner. */
  datatype Asked =
    | ToRelease(owner: Bytes, handle: Bytes)
    | ToStart(owner: Bytes, handle: Bytes)
    | ToRead(owner: Bytes, handle: Bytes, position: nat)
    | ToClose(owner: Bytes, handle: Bytes)

  /** A prepared query the provider handed over, how long the log was then, and the token handed out for it. */
  datatype Recipe = Recipe(caller: Caller, handle: Bytes, since: nat, token: Option<Bytes>)

  /** An execution the provider started, with the stream its token is read through. */
  datatype Started = Started(caller: Caller, handle: Bytes, since: nat, token: Option<Bytes>, command: bool,
                             stream: X.Stream)

  datatype Service = Service(recipes: seq<Recipe>, started: seq<Started>, handedOut: set<Bytes>, asked: seq<Asked>)

  const IDLE := Service([], [], {}, [])

  /**
   The provider's answer to a preparation: whether it declines, the recipe it carries, whether it meets the other
   rules on the answer and the request, whether it expires within bounds, and its fingerprint.
   */
  datatype PrepareAnswer =
    | PrepareFailed
    | NotAResult
    | PrepareAnswer(declined: bool, recipe: Option<Bytes>, fits: bool, inLifetime: bool, contract: Bytes,
                    expiresAt: int)

  datatype StartAnswer = StartFailed | NotPortable | StartAnswer(handle: Bytes, inLifetime: bool, expiresAt: int)

  /** A declined answer carries no recipe, an accepted one a nonempty recipe. */
  predicate ValidAnswer(a: PrepareAnswer)
    requires a.PrepareAnswer?
  {
    a.fits && if a.declined then a.recipe.None? else a.recipe.Some? && a.recipe.value != []
  }

  function Handed(token: Option<Bytes>): set<Bytes> { if token.Some? then {token.value} else {} }

  /** `prepare`: what the provider handed over is sealed in a token, or released again when that cannot be done. */
  function PrepareStep(w: Worker, s: Service, c: Caller, a: PrepareAnswer, nonce: Bytes): Service {
    if !a.PrepareAnswer? || a.recipe.None? || a.recipe.value == [] then s
    else
      var t := Ticket(Prepare, c.owner, c.capability, a.recipe.value, a.contract, a.expiresAt);
      var token := if ValidAnswer(a) && a.inLifetime && WellFormed(t) then Seal(w, t, nonce) else None;
      Service(s.recipes + [Recipe(c, a.recipe.value, |s.asked|, token)], s.started, s.handedOut + Handed(token),
              s.asked + if token.None? then [ToRelease(c.owner, a.recipe.value)] else [])
  }

  /** `release`, also after expiry. */
  function ReleaseStep(w: Worker, s: Service, c: Caller, token: Bytes, provider: bool, now: int): Service {
    match Open(w, token, c.owner, c.capability, Prepare, false, now)
    case None => s
    case Some(t) => if provider then s.(asked := s.asked + [ToRelease(c.owner, t.handle)]) else s
  }

  /** `on_init`: `found` is the fingerprint of the preparation the provider resolves. */
  function InitStep(w: Worker, s: Service, c: Caller, token: Bytes, now: int, found: Option<Bytes>, a: StartAnswer,
                    command: bool, nonce: Bytes): Service
  {
    match Open(w, token, c.owner, c.capability, Prepare, true, now)
    case None => s
    case Some(t) =>
      if found != Some(t.contract) then s
      else
        var asked := s.asked + [ToStart(c.owner, t.handle)];
        if !a.StartAnswer? then s.(asked := asked)
        else
          var e := Ticket(Execution, c.owner, c.capability, a.handle, t.contract, a.expiresAt);
          var sealed := if a.inLifetime && WellFormed(e) then Seal(w, e, nonce) else None;
          Service(s.recipes, s.started + [Started(c, a.handle, |asked|, sealed, command, X.OPENED)],
                  s.handedOut + Handed(sealed), asked + if sealed.None? then [ToClose(c.owner, a.handle)] else [])
  }

  /** What the events of a stream ask of the provider. */
  function AsksOf(events: seq<X.Event>, owner: Bytes, handle: Bytes): seq<Asked> {
    if events == [] then []
    else
      AsksOf(events[..|events| - 1], owner, handle)
      + match events[|events| - 1]
        case Read(position) => [ToRead(owner, handle, position)]
        case Close(_, _) => [ToClose(owner, handle)]
        case _ => []
  }

  /** One call on a stream, by whoever; its token opens or not for that caller. */
  function CallStep(w: Worker, s: Service, i: nat, c: Caller, call: X.Call, now: int): Service
    requires i < |s.started|
  {
    var e := s.started[i];
    if e.token.None? then s
    else
      var ticket := Open(w, e.token.value, c.owner, c.capability, Execution, false, now);
      var turn := call.turn.(opens := ticket.Some?);
      var after := X.StepOf(e.stream, e.command, call.(turn := turn)).0;
      X.TraceGrows(e.stream, e.command, call.(turn := turn));
      var added := after.trace[|e.stream.trace|..];
      s.(started := s.started[i := e.(stream := after)],
         asked := s.asked + if ticket.Some? then AsksOf(added, c.owner, ticket.value.handle) else [])
  }

  datatype Step =
    | PrepareCall(caller: Caller, prepared: PrepareAnswer, nonce: Bytes)
    | ReleaseCall(caller: Caller, token: Bytes, provider: bool, now: int)
    | InitCall(caller: Caller, token: Bytes, now: int, found: Option<Bytes>, execution: StartAnswer, command: bool,
               nonce: Bytes)
    | StreamCall(caller: Caller, stream: nat, call: X.Call, now: int)

  function StepOf(w: Worker, s: Service, step: Step): Service {
    match step
    case PrepareCall(c, a, nonce) => PrepareStep(w, s, c, a, nonce)
    case ReleaseCall(c, token, provider, now) => ReleaseStep(w, s, c, token, provider, now)
    case InitCall(c, token, now, found, a, command, nonce) => InitStep(w, s, c, token, now, found, a, command, nonce)
    case StreamCall(c, i, call, now) => if i < |s.started| then CallStep(w, s, i, c, call, now) else s
  }

  function Run(w: Worker, steps: seq<Step>): Service {
    if steps == [] then IDLE else StepOf(w, Run(w, steps[..|steps| - 1]), steps[|steps| - 1])
  }

  // ---- Tokens ----------------------------------------------------------------------------------

  /** The token is a sealed ticket of this caller for this handle. */
  ghost predicate SealedAs(w: Worker, token: Bytes, kind: Kind, c: Caller, handle: Bytes) {
    exists t: Ticket, n: Bytes ::
      && WellFormed(t) && Seal(w, t, n) == Some(token)
      && t.kind == kind && t.owner == c.owner && t.capability == c.capability && t.handle == handle
  }

  /** So it opens for that caller, to that handle, at any time, and for nobody else or as another kind. */
  lemma SealedOpensOnlyAs(w: Worker, token: Bytes, kind: Kind, c: Caller, handle: Bytes, other: Caller, as_: Kind,
                          now: int)
    requires Correct(w) && SealedAs(w, token, kind, c, handle)
    ensures var ticket := Open(w, token, other.owner, other.capability, as_, false, now);
            if other == c && as_ == kind then ticket.Some? && ticket.value.handle == handle else ticket.None?
  {
    var t: Ticket, n: Bytes :|
      && WellFormed(t) && Seal(w, t, n) == Some(token)
      && t.kind == kind && t.owner == c.owner && t.capability == c.capability && t.handle == handle;
    SealedTicketOpensExactly(w, t, n, other.owner, other.capability, as_, false, now);
  }

  lemma CheckedOpens(w: Worker, token: Bytes, c: Caller, kind: Kind, now: int)
    ensures var checked := Open(w, token, c.owner, c.capability, kind, true, now);
            checked.Some? ==> Open(w, token, c.owner, c.capability, kind, false, now) == checked
  {
  }

  // ---- Nothing is lost track of ----------------------------------------------------------------

  ghost predicate AskedSince(s: Service, since: nat, a: Asked) {
    exists k :: since <= k < |s.asked| && s.asked[k] == a
  }

  /** The prepared query was released, or its ticket is out and opens to it. */
  ghost predicate RecipeKept(w: Worker, s: Service, r: Recipe) {
    && r.since <= |s.asked|
    && (r.token.Some? ==> r.token.value in s.handedOut && SealedAs(w, r.token.value, Prepare, r.caller, r.handle))
    && (r.token.Some? || AskedSince(s, r.since, ToRelease(r.caller.owner, r.handle)))
  }

  /** The execution's close was asked for, or its ticket is out, opens to it, and its stream is still open. */
  ghost predicate ExecutionKept(w: Worker, s: Service, e: Started) {
    && e.since <= |s.asked| && X.Inv(e.command, e.stream)
    && (e.token.Some? ==> e.token.value in s.handedOut && SealedAs(w, e.token.value, Execution, e.caller, e.handle))
    && ((e.token.Some? && !e.stream.closed) || AskedSince(s, e.since, ToClose(e.caller.owner, e.handle)))
  }

  ghost predicate AllKept(w: Worker, s: Service) {
    && (forall i :: 0 <= i < |s.recipes| ==> RecipeKept(w, s, s.recipes[i]))
    && (forall i :: 0 <= i < |s.started| ==> ExecutionKept(w, s, s.started[i]))
  }

  /** A longer log and more tokens keep what is kept. */
  lemma MoreKeeps(w: Worker, s: Service, t: Service)
    requires s.asked <= t.asked && s.handedOut <= t.handedOut
    ensures forall r :: RecipeKept(w, s, r) ==> RecipeKept(w, t, r)
    ensures forall e :: ExecutionKept(w, s, e) ==> ExecutionKept(w, t, e)
  {
    hide SealedAs, X.Inv;
    forall since: nat, a | AskedSince(s, since, a) ensures AskedSince(t, since, a) {
      var k :| since <= k < |s.asked| && s.asked[k] == a;
      assert t.asked[k] == a;
    }
  }

  lemma SealedNow(w: Worker, t: Ticket, nonce: Bytes)
    requires WellFormed(t) && Seal(w, t, nonce).Some?
    ensures SealedAs(w, Seal(w, t, nonce).value, t.kind, Caller(t.owner, t.capability), t.handle)
  {
  }

  lemma PrepareKeeps(w: Worker, s: Service, c: Caller, a: PrepareAnswer, nonce: Bytes)
    requires AllKept(w, s)
    ensures AllKept(w, PrepareStep(w, s, c, a, nonce))
  {
    hide Seal, WellFormed, SealedAs, X.Inv, RecipeKept, ExecutionKept;
    var after := PrepareStep(w, s, c, a, nonce);
    if after != s {
      MoreKeeps(w, s, after);
      var t := Ticket(Prepare, c.owner, c.capability, a.recipe.value, a.contract, a.expiresAt);
      var r := after.recipes[|s.recipes|];
      if r.token.Some? {
        SealedNow(w, t, nonce);
      } else {
        assert after.asked[|s.asked|] == ToRelease(c.owner, r.handle);
      }
      NewRecipeKept(w, after, r);
    }
  }

  lemma NewRecipeKept(w: Worker, s: Service, r: Recipe)
    requires r.since <= |s.asked|
    requires r.token.Some? ==> r.token.value in s.handedOut && SealedAs(w, r.token.value, Prepare, r.caller, r.handle)
    requires r.token.None? ==> r.since < |s.asked| && s.asked[r.since] == ToRelease(r.caller.owner, r.handle)
    ensures RecipeKept(w, s, r)
  {
    hide SealedAs;
  }

  lemma InitKeeps(w: Worker, s: Service, c: Caller, token: Bytes, now: int, found: Option<Bytes>, a: StartAnswer,
                  command: bool, nonce: Bytes)
    requires AllKept(w, s)
    ensures AllKept(w, InitStep(w, s, c, token, now, found, a, command, nonce))
  {
    hide Open, Seal, WellFormed, SealedAs, X.Inv, RecipeKept, ExecutionKept;
    var after := InitStep(w, s, c, token, now, found, a, command, nonce);
    MoreKeeps(w, s, after);
    if |after.started| > |s.started| {
      var t := Open(w, token, c.owner, c.capability, Prepare, true, now).value;
      var e := after.started[|s.started|];
      if e.token.Some? {
        SealedNow(w, Ticket(Execution, c.owner, c.capability, a.handle, t.contract, a.expiresAt), nonce);
      } else {
        assert after.asked[|s.asked| + 1] == ToClose(c.owner, e.handle);
      }
      NewExecutionKept(w, after, e);
    }
  }

  lemma NewExecutionKept(w: Worker, s: Service, e: Started)
    requires e.since <= |s.asked| && e.stream == X.OPENED
    requires e.token.Some? ==> e.token.value in s.handedOut && SealedAs(w, e.token.value, Execution, e.caller, e.handle)
    requires e.token.None? ==> e.since < |s.asked| && s.asked[e.since] == ToClose(e.caller.owner, e.handle)
    ensures ExecutionKept(w, s, e)
  {
    hide SealedAs, X.Inv;
    X.OpenedIsInv(e.command);
  }

  lemma {:induction false} CloseIsAsked(events: seq<X.Event>, owner: Bytes, handle: Bytes)
    requires X.HasClose(events)
    ensures ToClose(owner, handle) in AsksOf(events, owner, handle)
  {
    var last := |events| - 1;
    if !events[last].Close? {
      var i :| 0 <= i < |events| && events[i].Close?;
      assert events[..last][i].Close?;
      CloseIsAsked(events[..last], owner, handle);
    }
  }

  /** A stream becomes closed only by a call whose ticket opens and which asks for a close. */
  lemma ClosingAsks(before: X.Stream, command: bool, call: X.Call)
    requires !before.closed && X.StepOf(before, command, call).0.closed
    ensures var after := X.StepOf(before, command, call).0;
            before.trace <= after.trace && call.turn.opens && X.HasClose(after.trace[|before.trace|..])
  {
    hide X.Guarded;
    var after := X.StepOf(before, command, call).0;
    X.TraceGrows(before, command, call);
    var added := after.trace[|before.trace|..];
    match call
    case Process(turn) =>
      X.ProcessObeysLaw(before, command, turn);
      if X.ProcessStep(before, command, turn).1.Finished? {
        assert added[1].Close?;
      } else {
        assert added[|added| - 1].Close?;
      }
    case Cancel(turn) => assert added[0].Close?;
  }

  lemma StreamKeepsInv(before: X.Stream, command: bool, call: X.Call)
    requires X.Inv(command, before)
    ensures X.Inv(command, X.StepOf(before, command, call).0)
  {
    hide X.Inv, X.ProcessStep, X.CancelStep;
    match call
    case Process(turn) => X.ProcessKeepsInv(before, command, turn);
    case Cancel(turn) => X.CancelKeepsInv(before, command, turn);
  }

  lemma CallKeeps(w: Worker, s: Service, i: nat, c: Caller, call: X.Call, now: int)
    requires Correct(w) && AllKept(w, s) && i < |s.started|
    ensures AllKept(w, CallStep(w, s, i, c, call, now))
  {
    hide Open, SealedAs, X.Inv, X.StepOf, RecipeKept, X.HasClose, Correct;
    var after := CallStep(w, s, i, c, call, now);
    var e := s.started[i];
    if e.token.Some? {
      MoreKeeps(w, s, after);
      var ticket := Open(w, e.token.value, c.owner, c.capability, Execution, false, now);
      var called := call.(turn := call.turn.(opens := ticket.Some?));
      StreamKeepsInv(e.stream, e.command, called);
      var next := after.started[i];
      assert ExecutionKept(w, after, e);
      if !e.stream.closed && next.stream.closed {
        ClosingAsks(e.stream, e.command, called);
        SealedOpensOnlyAs(w, e.token.value, Execution, e.caller, e.handle, c, Execution, now);
        CloseIsAsked(next.stream.trace[|e.stream.trace|..], c.owner, e.handle);
        NowAsked(s, after, AsksOf(next.stream.trace[|e.stream.trace|..], c.owner, e.handle), e.since,
                 ToClose(c.owner, e.handle));
      }
      ClosedStays(e.stream, e.command, called);
    }
  }

  lemma ClosedStays(before: X.Stream, command: bool, call: X.Call)
    ensures before.closed ==> X.StepOf(before, command, call).0.closed
  {
  }

  lemma NowAsked(s: Service, after: Service, more: seq<Asked>, since: nat, a: Asked)
    requires after.asked == s.asked + more && a in more && since <= |s.asked|
    ensures AskedSince(after, since, a)
  {
    var k :| 0 <= k < |more| && more[k] == a;
    assert after.asked[|s.asked| + k] == a;
  }

  /**
   Over every interleaving of calls by any callers with any tokens: each prepared query the provider handed over
   was released, or its ticket is out and opens to it for the caller who prepared it; and the close of each
   execution it started was asked for, or its ticket is out, opens to it for the caller who started it, and its
   stream is still open.
   */
  lemma {:induction false} NothingIsDropped(w: Worker, steps: seq<Step>)
    requires Correct(w)
    ensures AllKept(w, Run(w, steps))
  {
    hide Correct, AllKept, PrepareStep, ReleaseStep, InitStep, CallStep;
    if steps == [] {
      NothingYet(w);
    } else {
      var s := Run(w, steps[..|steps| - 1]);
      NothingIsDropped(w, steps[..|steps| - 1]);
      match steps[|steps| - 1]
      case PrepareCall(c, a, nonce) => PrepareKeeps(w, s, c, a, nonce);
      case ReleaseCall(c, token, provider, now) => ReleaseKeeps(w, s, c, token, provider, now);
      case InitCall(c, token, now, found, a, command, nonce) =>
          InitKeeps(w, s, c, token, now, found, a, command, nonce);
      case StreamCall(c, i, call, now) =>
        if i < |s.started| {
          CallKeeps(w, s, i, c, call, now);
        }
    }
  }

  lemma NothingYet(w: Worker)
    ensures AllKept(w, IDLE)
  {
  }

  lemma ReleaseKeeps(w: Worker, s: Service, c: Caller, token: Bytes, provider: bool, now: int)
    requires AllKept(w, s)
    ensures AllKept(w, ReleaseStep(w, s, c, token, provider, now))
  {
    hide Open, RecipeKept, ExecutionKept;
    MoreKeeps(w, s, ReleaseStep(w, s, c, token, provider, now));
  }

  // ---- A query served from preparation to its end -----------------------------------------------

  /** What goes into a token, before its size is known. */
  function Payload(w: Worker, t: Ticket, nonce: Bytes): Bytes {
    if w.keyed then w.seal(w.write(t), TICKET_DOMAIN + t.owner, nonce) else w.write(t)
  }

  /** The provider prepares the query within bounds, and the ticket for it fits in a token. */
  predicate PreparesWell(w: Worker, c: Caller, a: PrepareAnswer, nonce: Bytes) {
    && |c.owner| == |c.capability| == 32
    && a.PrepareAnswer? && !a.declined && a.fits && a.inLifetime && |a.contract| == 32
    && a.recipe.Some? && 0 < |a.recipe.value| <= 32768 && 0 < a.expiresAt < 0x8000_0000_0000_0000
    && |Payload(w, Ticket(Prepare, c.owner, c.capability, a.recipe.value, a.contract, a.expiresAt), nonce)| <= 65536
  }

  /** And so does the execution it starts for it. */
  predicate StartsWell(w: Worker, c: Caller, contract: Bytes, a: StartAnswer, nonce: Bytes) {
    && a.StartAnswer? && a.inLifetime && 0 < |a.handle| <= 32768 && 0 < a.expiresAt < 0x8000_0000_0000_0000
    && |Payload(w, Ticket(Execution, c.owner, c.capability, a.handle, contract, a.expiresAt), nonce)| <= 65536
  }

  /** The owner calls on a stream, once per turn. */
  function ReadAll(w: Worker, s: Service, i: nat, c: Caller, turns: seq<X.Turn>, now: int): (t: Service)
    requires i < |s.started|
    ensures |t.started| == |s.started|
  {
    if turns == [] then s
    else
      CallStep(w, ReadAll(w, s, i, c, turns[..|turns| - 1], now), i, c, X.Process(turns[|turns| - 1]), now)
  }

  /** An answer with a recipe is handed out in a token exactly when it prepares well, and released otherwise. */
  lemma PreparedExactly(w: Worker, s: Service, c: Caller, a: PrepareAnswer, nonce: Bytes)
    requires a.PrepareAnswer? && a.recipe.Some? && a.recipe.value != []
    ensures var t := Ticket(Prepare, c.owner, c.capability, a.recipe.value, a.contract, a.expiresAt);
            PrepareStep(w, s, c, a, nonce)
            == if PreparesWell(w, c, a, nonce) then
                 s.(recipes := s.recipes + [Recipe(c, a.recipe.value, |s.asked|, Some(Payload(w, t, nonce)))],
                    handedOut := s.handedOut + {Payload(w, t, nonce)})
               else
                 s.(recipes := s.recipes + [Recipe(c, a.recipe.value, |s.asked|, None)],
                    asked := s.asked + [ToRelease(c.owner, a.recipe.value)])
  {
  }

  /**
   Whatever happened since, that token starts an execution before it expires; it opens a stream exactly when it starts
   well, and is closed otherwise.
   */
  lemma StartedExactly(w: Worker, s: Service, c: Caller, a: PrepareAnswer, nonce: Bytes, now: int, x: StartAnswer,
                       command: bool, nonce': Bytes)
    requires Correct(w) && PreparesWell(w, c, a, nonce) && now < a.expiresAt && x.StartAnswer?
    ensures var p := Ticket(Prepare, c.owner, c.capability, a.recipe.value, a.contract, a.expiresAt);
            var token := Payload(w, Ticket(Execution, c.owner, c.capability, x.handle, a.contract, x.expiresAt),
                                 nonce');
            var asked := s.asked + [ToStart(c.owner, a.recipe.value)];
            InitStep(w, s, c, Payload(w, p, nonce), now, Some(a.contract), x, command, nonce')
            == if StartsWell(w, c, a.contract, x, nonce') then
                 Service(s.recipes, s.started + [Started(c, x.handle, |asked|, Some(token), command, X.OPENED)],
                         s.handedOut + {token}, asked)
               else
                 Service(s.recipes, s.started + [Started(c, x.handle, |asked|, None, command, X.OPENED)],
                         s.handedOut, asked + [ToClose(c.owner, x.handle)])
  {
    hide Open;
    var t := Ticket(Prepare, c.owner, c.capability, a.recipe.value, a.contract, a.expiresAt);
    SealedTicketOpensExactly(w, t, nonce, c.owner, c.capability, Prepare, true, now);
    assert s.handedOut + {} == s.handedOut;
  }

  lemma {:induction false} OwnCallsRunTheStream(w: Worker, s: Service, i: nat, c: Caller, turns: seq<X.Turn>, now: int)
    requires Correct(w) && i < |s.started| && s.started[i].token.Some? && s.started[i].stream == X.OPENED
    requires SealedAs(w, s.started[i].token.value, Execution, c, s.started[i].handle)
    requires forall k :: 0 <= k < |turns| ==> turns[k].opens
    ensures var e := s.started[i];
            ReadAll(w, s, i, c, turns, now).started[i] == e.(stream := X.Run(e.command, X.Calls(turns)))
  {
    hide Open, SealedAs, Correct, X.ProcessStep;
    var e := s.started[i];
    if turns == [] {
      assert X.Calls(turns) == [];
    } else {
      var n := |turns| - 1;
      OwnCallsRunTheStream(w, s, i, c, turns[..n], now);
      SealedOpensOnlyAs(w, e.token.value, Execution, c, e.handle, c, Execution, now);
      X.CallsOfPrefix(turns, n);
      assert turns[..n + 1] == turns;
      assert X.Calls(turns)[..n] == X.Calls(turns[..n]);
      var turn := turns[n];
      assert turn.(opens := true) == turn;
    }
  }

  /**
   A query its owner prepares, starts before it expires and reads to its end: whatever else the service did between
   preparing and starting, and between starting and reading, the owner gets exactly the batches the provider served,
   in order, and the stream is closed at its end.
   */
  lemma PreparedQueryIsServed(w: Worker, s: Service, c: Caller, a: PrepareAnswer, nonce: Bytes, later: Service,
                              now: int, x: StartAnswer, command: bool, nonce': Bytes, turns: seq<X.Turn>,
                              batches: seq<X.Batch>)
    returns (token: Bytes, e: Started)
    requires Correct(w) && PreparesWell(w, c, a, nonce) && StartsWell(w, c, a.contract, x, nonce')
    requires now < a.expiresAt && X.Serves(command, turns, batches)
    ensures PrepareStep(w, s, c, a, nonce).recipes == s.recipes + [Recipe(c, a.recipe.value, |s.asked|, Some(token))]
    ensures InitStep(w, later, c, token, now, Some(a.contract), x, command, nonce').started == later.started + [e]
    ensures e.caller == c && e.handle == x.handle && e.command == command
    ensures forall reading: Service, i: nat, when: int :: i < |reading.started| && reading.started[i] == e ==>
              var stream := ReadAll(w, reading, i, c, turns, when).started[i].stream;
              X.EmitsIn(stream.trace) == X.Emissions(batches) && stream.position == |batches| && stream.closed
  {
    hide Seal, Open, Correct, PrepareStep, InitStep, Payload;
    var p := Ticket(Prepare, c.owner, c.capability, a.recipe.value, a.contract, a.expiresAt);
    token := Payload(w, p, nonce);
    PreparedExactly(w, s, c, a, nonce);
    StartedExactly(w, later, c, a, nonce, now, x, command, nonce');
    var t := Ticket(Execution, c.owner, c.capability, x.handle, a.contract, x.expiresAt);
    e := Started(c, x.handle, |later.asked| + 1, Some(Payload(w, t, nonce')), command, X.OPENED);
    TokenIsPayload(w, t, nonce');
    SealedNow(w, t, nonce');
    X.ServedToTheEnd(command, turns, batches);
    forall reading: Service, i: nat, when: int | i < |reading.started| && reading.started[i] == e
      ensures ReadAll(w, reading, i, c, turns, when).started[i].stream == X.Run(command, X.Calls(turns))
    {
      OwnCallsRunTheStream(w, reading, i, c, turns, when);
    }
  }

  /** A prepared query is started only for its caller, before it expires, and while it resolves to what was prepared. */
  lemma StartedOnlyAsPrepared(w: Worker, s: Service, t: Ticket, nonce: Bytes, c: Caller, now: int, found: Option<Bytes>,
                              x: StartAnswer, command: bool, nonce': Bytes)
    requires Correct(w) && WellFormed(t) && Seal(w, t, nonce).Some?
    ensures InitStep(w, s, c, Seal(w, t, nonce).value, now, found, x, command, nonce') != s
            <==> && t.kind == Prepare && c == Caller(t.owner, t.capability) && now < t.expiresAt
                 && found == Some(t.contract)
  {
    hide Seal, Open, Correct, WellFormed;
    SealedTicketOpensExactly(w, t, nonce, c.owner, c.capability, Prepare, true, now);
    var after := InitStep(w, s, c, Seal(w, t, nonce).value, now, found, x, command, nonce');
    assert after.asked != s.asked ==> after != s;
  }

  /** Its caller can release it at any time, also after it expired; nobody else can. */
  lemma OwnerReleases(w: Worker, s: Service, t: Ticket, nonce: Bytes, c: Caller, now: int)
    requires Correct(w) && WellFormed(t) && t.kind == Prepare && Seal(w, t, nonce).Some?
    ensures ReleaseStep(w, s, c, Seal(w, t, nonce).value, true, now)
            == if c == Caller(t.owner, t.capability) then s.(asked := s.asked + [ToRelease(t.owner, t.handle)]) else s
  {
    hide Seal, Open, Correct, WellFormed;
    SealedTicketOpensExactly(w, t, nonce, c.owner, c.capability, Prepare, false, now);
  }

  lemma TokenIsPayload(w: Worker, t: Ticket, nonce: Bytes)
    requires |Payload(w, t, nonce)| <= 65536
    ensures Seal(w, t, nonce) == Some(Payload(w, t, nonce))
  {
  }

  // ---- Nobody but the owner is served ----------------------------------------------------------

  /** The provider handed this owner what it is asked about. */
  ghost predicate Granted(s: Service, a: Asked) {
    match a
    case ToRelease(owner, handle) => HasRecipe(s, owner, handle)
    case ToStart(owner, handle) => HasRecipe(s, owner, handle)
    case ToRead(owner, handle, _) => HasStarted(s, owner, handle)
    case ToClose(owner, handle) => HasStarted(s, owner, handle)
  }

  ghost predicate HasRecipe(s: Service, owner: Bytes, handle: Bytes) {
    exists i :: 0 <= i < |s.recipes| && s.recipes[i].caller.owner == owner && s.recipes[i].handle == handle
  }

  ghost predicate HasStarted(s: Service, owner: Bytes, handle: Bytes) {
    exists i :: 0 <= i < |s.started| && s.started[i].caller.owner == owner && s.started[i].handle == handle
  }

  /** Every token that is out was sealed for a prepared query or an execution. */
  ghost predicate Accounted(s: Service, token: Bytes) {
    || (exists i :: 0 <= i < |s.recipes| && s.recipes[i].token == Some(token))
    || (exists i :: 0 <= i < |s.started| && s.started[i].token == Some(token))
  }

  ghost predicate Served(s: Service) {
    && (forall k :: 0 <= k < |s.asked| ==> Granted(s, s.asked[k]))
    && (forall token <- s.handedOut :: Accounted(s, token))
  }

  /** Tokens that were never handed out open to nothing, which is what a signing key is for. */
  ghost predicate Unforged(w: Worker, s: Service, step: Step) {
    match step
    case ReleaseCall(c, token, _, now) =>
      token in s.handedOut || Open(w, token, c.owner, c.capability, Prepare, false, now).None?
    case InitCall(c, token, now, _, _, _, _) =>
      token in s.handedOut || Open(w, token, c.owner, c.capability, Prepare, false, now).None?
    case _ => true
  }

  /** What changes in a step only grows, but for the streams. */
  ghost predicate Grows(s: Service, t: Service) {
    && s.recipes <= t.recipes && |s.started| <= |t.started|
    && forall i :: 0 <= i < |s.started| ==>
         && t.started[i].caller == s.started[i].caller && t.started[i].handle == s.started[i].handle
         && t.started[i].token == s.started[i].token
  }

  lemma GrowingKeepsServed(s: Service, t: Service)
    requires Grows(s, t)
    ensures forall a :: Granted(s, a) ==> Granted(t, a)
    ensures forall token :: Accounted(s, token) ==> Accounted(t, token)
  {
    forall owner, handle | HasRecipe(s, owner, handle) ensures HasRecipe(t, owner, handle) {
      var i :| 0 <= i < |s.recipes| && s.recipes[i].caller.owner == owner && s.recipes[i].handle == handle;
      assert t.recipes[i] == s.recipes[i];
    }
    forall owner, handle | HasStarted(s, owner, handle) ensures HasStarted(t, owner, handle) {
      var i :| 0 <= i < |s.started| && s.started[i].caller.owner == owner && s.started[i].handle == handle;
      assert t.started[i].caller == s.started[i].caller;
    }
    forall token | Accounted(s, token) ensures Accounted(t, token) {
      if i :| 0 <= i < |s.recipes| && s.recipes[i].token == Some(token) {
        assert t.recipes[i].token == Some(token);
      } else {
        var i :| 0 <= i < |s.started| && s.started[i].token == Some(token);
        assert t.started[i].token == Some(token);
      }
    }
  }

  /** A token that is out and opens as a prepared query belongs to one of the caller's own. */
  lemma OpenedIsOwn(w: Worker, s: Service, token: Bytes, c: Caller, now: int)
    requires Correct(w) && AllKept(w, s) && Served(s) && token in s.handedOut
    requires Open(w, token, c.owner, c.capability, Prepare, false, now).Some?
    ensures Granted(s, ToRelease(c.owner, Open(w, token, c.owner, c.capability, Prepare, false, now).value.handle))
    ensures Granted(s, ToStart(c.owner, Open(w, token, c.owner, c.capability, Prepare, false, now).value.handle))
  {
    hide Open, SealedAs, X.Inv, Correct, AskedSince;
    assert Accounted(s, token);
    if i :| 0 <= i < |s.recipes| && s.recipes[i].token == Some(token) {
      var r := s.recipes[i];
      assert RecipeKept(w, s, r);
      SealedOpensOnlyAs(w, token, Prepare, r.caller, r.handle, c, Prepare, now);
    } else {
      NotAnExecution(w, s, token, c, now);
    }
  }

  lemma NotAnExecution(w: Worker, s: Service, token: Bytes, c: Caller, now: int)
    requires Correct(w) && AllKept(w, s)
    requires exists i :: 0 <= i < |s.started| && s.started[i].token == Some(token)
    ensures Open(w, token, c.owner, c.capability, Prepare, false, now).None?
  {
    hide Open, SealedAs, X.Inv, Correct, AskedSince;
    var i :| 0 <= i < |s.started| && s.started[i].token == Some(token);
    var e := s.started[i];
    assert ExecutionKept(w, s, e);
    SealedOpensOnlyAs(w, token, Execution, e.caller, e.handle, c, Prepare, now);
  }

  lemma {:induction false} AsksAreOfThisExecution(events: seq<X.Event>, owner: Bytes, handle: Bytes)
    ensures forall a <- AsksOf(events, owner, handle) ::
              a.owner == owner && a.handle == handle && (a.ToRead? || a.ToClose?)
  {
    if events != [] {
      AsksAreOfThisExecution(events[..|events| - 1], owner, handle);
    }
  }

  lemma PrepareServes(w: Worker, s: Service, c: Caller, a: PrepareAnswer, nonce: Bytes)
    requires Served(s)
    ensures Served(PrepareStep(w, s, c, a, nonce))
  {
    hide Seal, WellFormed, Granted, Accounted;
    var after := PrepareStep(w, s, c, a, nonce);
    GrowingKeepsServed(s, after);
    if after != s {
      NewRecipeServes(after, |s.recipes|);
    }
  }

  lemma NewRecipeServes(s: Service, i: nat)
    requires i < |s.recipes|
    ensures Granted(s, ToRelease(s.recipes[i].caller.owner, s.recipes[i].handle))
    ensures s.recipes[i].token.Some? ==> Accounted(s, s.recipes[i].token.value)
  {
  }

  lemma NewExecutionServes(s: Service, i: nat)
    requires i < |s.started|
    ensures Granted(s, ToClose(s.started[i].caller.owner, s.started[i].handle))
    ensures s.started[i].token.Some? ==> Accounted(s, s.started[i].token.value)
  {
  }

  lemma InitServes(w: Worker, s: Service, c: Caller, token: Bytes, now: int, found: Option<Bytes>, a: StartAnswer,
                   command: bool, nonce: Bytes)
    requires Correct(w) && AllKept(w, s) && Served(s)
    requires Unforged(w, s, InitCall(c, token, now, found, a, command, nonce))
    ensures Served(InitStep(w, s, c, token, now, found, a, command, nonce))
  {
    hide Seal, WellFormed, Granted, Accounted, Open, AllKept, Correct;
    var after := InitStep(w, s, c, token, now, found, a, command, nonce);
    GrowingKeepsServed(s, after);
    CheckedOpens(w, token, c, Prepare, now);
    if after != s {
      OpenedIsOwn(w, s, token, c, now);
      if |after.started| > |s.started| {
        NewExecutionServes(after, |s.started|);
      }
    }
  }

  lemma CallServes(w: Worker, s: Service, i: nat, c: Caller, call: X.Call, now: int)
    requires Correct(w) && AllKept(w, s) && Served(s) && i < |s.started|
    ensures Served(CallStep(w, s, i, c, call, now))
  {
    hide Open, Granted, Accounted, SealedAs, X.Inv, X.StepOf, Correct, AskedSince;
    var after := CallStep(w, s, i, c, call, now);
    var e := s.started[i];
    GrowingKeepsServed(s, after);
    if e.token.Some? {
      assert ExecutionKept(w, s, e);
      var ticket := Open(w, e.token.value, c.owner, c.capability, Execution, false, now);
      if ticket.Some? {
        SealedOpensOnlyAs(w, e.token.value, Execution, e.caller, e.handle, c, Execution, now);
        X.TraceGrows(e.stream, e.command, call.(turn := call.turn.(opens := true)));
        var added := after.started[i].stream.trace[|e.stream.trace|..];
        AsksAreOfThisExecution(added, c.owner, e.handle);
        forall a <- AsksOf(added, c.owner, e.handle) ensures Granted(after, a) {
          GrantedToStarter(after, i, a);
        }
      }
    }
  }

  lemma GrantedToStarter(s: Service, i: nat, a: Asked)
    requires i < |s.started| && a.owner == s.started[i].caller.owner && a.handle == s.started[i].handle
             && (a.ToRead? || a.ToClose?)
    ensures Granted(s, a)
  {
  }

  lemma ReleaseServes(w: Worker, s: Service, c: Caller, token: Bytes, provider: bool, now: int)
    requires Correct(w) && AllKept(w, s) && Served(s) && Unforged(w, s, ReleaseCall(c, token, provider, now))
    ensures Served(ReleaseStep(w, s, c, token, provider, now))
  {
    hide Granted, Accounted, Open, AllKept, Correct;
    var after := ReleaseStep(w, s, c, token, provider, now);
    GrowingKeepsServed(s, after);
    if after != s {
      OpenedIsOwn(w, s, token, c, now);
    }
  }

  lemma StepServes(w: Worker, s: Service, step: Step)
    requires Correct(w) && AllKept(w, s) && Served(s) && Unforged(w, s, step)
    ensures Served(StepOf(w, s, step))
  {
    hide Correct, AllKept, Served, Unforged, PrepareStep, ReleaseStep, InitStep, CallStep;
    match step
    case PrepareCall(c, a, nonce) => PrepareServes(w, s, c, a, nonce);
    case ReleaseCall(c, token, provider, now) => ReleaseServes(w, s, c, token, provider, now);
    case InitCall(c, token, now, found, a, command, nonce) => InitServes(w, s, c, token, now, found, a, command, nonce);
    case StreamCall(c, i, call, now) =>
      if i < |s.started| {
        CallServes(w, s, i, c, call, now);
      }
  }

  /** In every state of the run only tokens that were handed out open. */
  ghost predicate AllUnforged(w: Worker, steps: seq<Step>) {
    steps != [] ==>
      var init := steps[..|steps| - 1];
      AllUnforged(w, init) && Unforged(w, Run(w, init), steps[|steps| - 1])
  }

  /**
   Over every interleaving in which only tokens that were handed out open: the provider is asked to release or to
   start only prepared queries it handed to that owner, and to read or to close only executions it started for
   that owner.
   */
  lemma {:induction false} OnlyOwnersAreServed(w: Worker, steps: seq<Step>)
    requires Correct(w) && AllUnforged(w, steps)
    ensures Served(Run(w, steps))
  {
    hide Correct, AllKept, Served, Unforged, StepOf;
    if steps == [] {
      NobodyYet();
    } else {
      var init := steps[..|steps| - 1];
      OnlyOwnersAreServed(w, init);
      NothingIsDropped(w, init);
      StepServes(w, Run(w, init), steps[|steps| - 1]);
    }
  }

  lemma NobodyYet()
    ensures Served(IDLE)
  {
  }
}
