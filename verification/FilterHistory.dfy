/**
 The compacted delta history of an HTTP stream: a cursor carries only the deltas that installed
 some id's current revision, and the next turn rebuilds the filters from the snapshot and those.
 */
module FilterHistory {
  import opened Common
  import opened FilterModel
  import opened FilterParser
  import opened FilterDelta
  import opened FilterSnapshot
  import opened FilterRuns
  import opened FilterConvergence

  type Revision = (string, nat)

  /** `delta_revisions`: the (id, revision) pairs of a delta that has been accepted. */
  function Carried(doc: Document): set<Revision> {
    if UpdatesOf(doc).Some? then set u <- UpdatesOf(doc).value :: (u.id, u.revision) else {}
  }

  function CarriedBy(docs: seq<Document>): set<Revision> {
    if docs == [] then {} else CarriedBy(docs[..|docs| - 1]) + Carried(docs[|docs| - 1])
  }

  function Current(s: FilterState): set<Revision> { set id <- s.revisions :: (id, s.revisions[id]) }

  /** The deltas that are the first to carry some wanted revision. */
  function Keep(docs: seq<Document>, wanted: set<Revision>): seq<Document> {
    if docs == [] then []
    else
      var init, last := docs[..|docs| - 1], docs[|docs| - 1];
      Keep(init, wanted) + if Carried(last) * (wanted - CarriedBy(init)) != {} then [last] else []
  }

  /** What a stream carries from one turn to the next. */
  datatype Stream = Stream(filters: FilterState, history: seq<Document>, order: seq<string>)

  function IdOrder(ps: seq<Predicate>): seq<string> { seq(|ps|, i requires 0 <= i < |ps| => ps[i].id) }

  /** `_record_filter_delta`: apply one delta and compact the history that a cursor must carry. */
  method RecordFilterDelta(current: FilterState, history: seq<Document>, doc: Document, reading: Reading)
    returns (r: Option<Stream>)
    ensures r.Some? <==> ApplyDelta(current, doc, reading).Some?
    ensures r.Some? ==>
              var t := ApplyDelta(current, doc, reading).value;
              r.value == Stream(t, Keep(history + [doc], Current(t)), IdOrder(t.predicates))
  {
    hide Carried, Current, ApplyDelta, IdOrder;
    var updated := ParseDelta(current, doc, reading);
    if updated.None? {
      return None;
    }
    var deltas := history + [doc];
    var wanted := Current(updated.value);
    var kept: seq<Document> := [];
    for i := 0 to |deltas|
      invariant wanted == Current(updated.value) - CarriedBy(deltas[..i])
      invariant kept == Keep(deltas[..i], Current(updated.value))
    {
      assert deltas[..i + 1][..i] == deltas[..i];
      var carried := Carried(deltas[i]) * wanted;
      if carried != {} {
        kept := kept + [deltas[i]];
        wanted := wanted - carried;
      }
    }
    assert deltas[..|deltas|] == deltas;
    return Some(Stream(updated.value, kept, IdOrder(updated.value.predicates)));
  }

  function LiveIds(ps: seq<Predicate>): set<string> { set p <- ps :: p.id }

  function IdSet(order: seq<string>): set<string> { set id <- order }

  lemma OrderIsLive(ps: seq<Predicate>, order: seq<string>)
    requires IdSet(order) == LiveIds(ps)
    ensures forall i :: 0 <= i < |order| ==> LiveAt(ps, order[i]).Some?
  {
    forall i | 0 <= i < |order|
      ensures LiveAt(ps, order[i]).Some?
    {
      assert order[i] in IdSet(order);
      assert order[i] in LiveIds(ps);
      var p :| p in ps && p.id == order[i];
      var j :| 0 <= j < |ps| && ps[j] == p;
    }
  }

  /** `_with_predicate_order`: arrange the predicates as recorded, if the ids match. */
  function WithOrder(s: FilterState, order: seq<string>): Option<FilterState> {
    if IdOrder(s.predicates) == order then Some(s)
    else if |order| != |s.predicates| || IdSet(order) != LiveIds(s.predicates) then None
    else
      OrderIsLive(s.predicates, order);
      Some(s.(predicates := seq(|order|, i requires 0 <= i < |order| => LiveAt(s.predicates, order[i]).value)))
  }

  /** `_replay_filter_history`: the filters of the next turn, from the snapshot's and the history. */
  function ReplayHistory(snapshot: FilterState, history: seq<Document>, order: seq<string>): Option<FilterState> {
    var s :- ApplyAll(snapshot, history, REPLAY);
    if history == [] then Some(s) else WithOrder(s, order)
  }

  // ---- The history stays small -----------------------------------------------------------------

  lemma {:induction false} HistoryIsBounded(docs: seq<Document>, wanted: set<Revision>)
    ensures |Keep(docs, wanted)| <= |wanted * CarriedBy(docs)| <= |wanted|
  {
    hide Carried;
    if docs != [] {
      var init, last := docs[..|docs| - 1], docs[|docs| - 1];
      HistoryIsBounded(init, wanted);
      var more := Carried(last) * (wanted - CarriedBy(init));
      assert wanted * CarriedBy(docs) == wanted * CarriedBy(init) + more;
      assert |wanted * CarriedBy(docs)| == |wanted * CarriedBy(init)| + |more|;
    }
    SubsetIsSmaller(wanted * CarriedBy(docs), wanted);
  }

  /** A cursor never carries more deltas than there are recorded ids. */
  lemma HistoryIsNoLongerThanRevisions(docs: seq<Document>, s: FilterState)
    ensures |Keep(docs, Current(s))| <= |s.revisions|
  {
    HistoryIsBounded(docs, Current(s));
    CurrentIsNoLarger(s.revisions.Keys, s);
    assert |s.revisions| == |s.revisions.Keys|;
  }

  lemma {:induction false} CurrentIsNoLarger(ids: set<string>, s: FilterState)
    requires ids <= s.revisions.Keys
    ensures |set id <- ids :: (id, s.revisions[id])| <= |ids|
    ensures ids == s.revisions.Keys ==> (set id <- ids :: (id, s.revisions[id])) == Current(s)
    decreases |ids|
  {
    if ids != {} {
      var id :| id in ids;
      CurrentIsNoLarger(ids - {id}, s);
      assert (set i <- ids :: (i, s.revisions[i]))
             == (set i <- ids - {id} :: (i, s.revisions[i])) + {(id, s.revisions[id])};
    }
  }

  // ---- The first carrier of a revision ---------------------------------------------------------

  function FirstCarrier(docs: seq<Document>, r: Revision): Option<Document> {
    if docs == [] then None
    else
      var first := FirstCarrier(docs[..|docs| - 1], r);
      if first.Some? then first
      else if r in Carried(docs[|docs| - 1]) then Some(docs[|docs| - 1]) else None
  }

  lemma {:induction false} FirstCarrierExists(docs: seq<Document>, r: Revision)
    ensures FirstCarrier(docs, r).Some? <==> r in CarriedBy(docs)
    ensures FirstCarrier(docs, r).Some? ==>
            FirstCarrier(docs, r).value in docs && r in Carried(FirstCarrier(docs, r).value)
  {
    hide Carried;
    if docs != [] {
      FirstCarrierExists(docs[..|docs| - 1], r);
    }
  }

  lemma {:induction false} KeepKeepsFirstCarriers(docs: seq<Document>, wanted: set<Revision>, r: Revision)
    requires r in wanted
    ensures FirstCarrier(Keep(docs, wanted), r) == FirstCarrier(docs, r)
  {
    hide Carried;
    if docs != [] {
      var init, last := docs[..|docs| - 1], docs[|docs| - 1];
      KeepKeepsFirstCarriers(init, wanted, r);
      FirstCarrierExists(init, r);
      var kept := Keep(init, wanted);
      assert (kept + [last])[..|kept|] == kept && kept + [] == kept;
      if r in Carried(last) && FirstCarrier(init, r).None? {
        assert r in Carried(last) * (wanted - CarriedBy(init));
      }
    }
  }

  lemma {:induction false} KeepKeepsOnlyMembers(docs: seq<Document>, wanted: set<Revision>)
    ensures forall d <- Keep(docs, wanted) :: d in docs
  {
    if docs != [] {
      KeepKeepsOnlyMembers(docs[..|docs| - 1], wanted);
      assert docs == docs[..|docs| - 1] + [docs[|docs| - 1]];
    }
  }

  lemma CarriedIsUpdate(doc: Document, id: string, revision: nat)
    requires UpdatesOf(doc).Some? && DistinctIds(UpdatesOf(doc).value)
    ensures (id, revision) in Carried(doc) <==>
              var u := UpdateFor(UpdatesOf(doc).value, id); u.Some? && u.value.revision == revision
  {
    hide UpdatesOf;
    var us := UpdatesOf(doc).value;
    UpdateForIsPresent(us, id);
    if (id, revision) in Carried(doc) {
      var u :| u in us && (u.id, u.revision) == (id, revision);
      var j :| 0 <= j < |us| && us[j] == u;
    }
  }

  // ---- What the history of a stream preserves --------------------------------------------------

  /**
   The history accounts for every id: it is as in the snapshot, or the first delta that carries its
   current revision is the one that installed it. Nothing in the history is newer than the state.
   */
  ghost predicate Supports(snapshot: FilterState, s: FilterState, history: seq<Document>) {
    && s.scan == snapshot.scan && s.context == snapshot.context && s.requiredIds == snapshot.requiredIds
    && (s.revisions == snapshot.revisions ==> s == snapshot)
    && (forall id <- snapshot.revisions :: id in s.revisions && snapshot.revisions[id] <= s.revisions[id])
    && (forall d <- history :: Admissible(s, d) && DistinctIds(UpdatesOf(d).value))
    && (forall d, id, r :: d in history && (id, r) in Carried(d) ==> id in s.revisions && r <= s.revisions[id])
    && (forall id :: Accounted(snapshot, s, history, id))
  }

  ghost predicate Accounted(snapshot: FilterState, s: FilterState, history: seq<Document>, id: string) {
    At(s, id) == At(snapshot, id) ||
    (&& id in s.revisions
     && (id in snapshot.revisions ==> snapshot.revisions[id] < s.revisions[id])
     && FirstCarrier(history, (id, s.revisions[id])).Some?
     && Offer(s.scan, FirstCarrier(history, (id, s.revisions[id])).value, id) == At(s, id))
  }

  /**
   An accepted delta installs what it offers for an id, unless its update is stale: then it need not even
   validate.
   */
  lemma StepTakes(s: FilterState, doc: Document, reading: Reading, id: string)
    requires DistinctPredicates(s.predicates) && ApplyDelta(s, doc, reading).Some?
    ensures UpdatesOf(doc).Some? && DistinctIds(UpdatesOf(doc).value)
    ensures var t, u := ApplyDelta(s, doc, reading).value, UpdateFor(UpdatesOf(doc).value, id);
            && DistinctPredicates(t.predicates)
            && t == s.(predicates := t.predicates, revisions := t.revisions)
            && if u.None? || Stale(u.value, s.revisions) then At(t, id) == At(s, id)
               else At(t, id) == Offer(s.scan, doc, id) && At(t, id).Some? && t.revisions[id] == u.value.revision
  {
    hide UpdatesOf, Parsed, LiveAt, PatchOf, PatchNodes, Commit;
    var us := UpdatesOf(doc).value;
    UpdateForIsPresent(us, id);
    var u := UpdateFor(us, id);
    if u.Some? {
      AcceptedPatch(s, doc, reading, u.value);
      PatchIsNewer(s.scan, doc, reading, s.revisions, u.value);
    }
    hide ApplyDelta;
    StepAt(s, doc, reading, id);
  }

  /** The pairs a document carries, seen at one id. */
  lemma CarriedAt(doc: Document, id: string)
    requires UpdatesOf(doc).Some? && DistinctIds(UpdatesOf(doc).value)
    ensures forall r :: (id, r) in Carried(doc) <==>
              var u := UpdateFor(UpdatesOf(doc).value, id); u.Some? && u.value.revision == r
    ensures var u := UpdateFor(UpdatesOf(doc).value, id); u.Some? ==> u.value.id == id
  {
    hide UpdatesOf, Carried;
    forall r ensures (id, r) in Carried(doc) <==>
                       var u := UpdateFor(UpdatesOf(doc).value, id); u.Some? && u.value.revision == r
    {
      CarriedIsUpdate(doc, id, r);
    }
    UpdateForIsPresent(UpdatesOf(doc).value, id);
  }

  lemma AccountedAfterStep(snapshot: FilterState, s: FilterState, history: seq<Document>, doc: Document,
                           reading: Reading, id: string)
    requires Inv(s) && Supports(snapshot, s, history) && ApplyDelta(s, doc, reading).Some?
    ensures var t := ApplyDelta(s, doc, reading).value;
            && Accounted(snapshot, t, Keep(history + [doc], Current(t)), id)
            && t.scan == s.scan
            && forall r :: (id, r) in Carried(doc) ==> id in t.revisions && r <= t.revisions[id]
  {
    hide ApplyDelta, Inv, UpdatesOf, LiveAt, Offer, Admissible, Keep, Current, DistinctPredicates, Carried;
    var t := ApplyDelta(s, doc, reading).value;
    InvIsDistinct(s);
    StepTakes(s, doc, reading, id);
    CarriedAt(doc, id);
    if id in t.revisions {
      var r := (id, t.revisions[id]);
      KeepKeepsFirstCarriers(history + [doc], Current(t), r) by {
        CurrentHas(t, id);
      }
      assert (history + [doc])[..|history|] == history;
      FirstCarrierExists(history, r);
      assert Accounted(snapshot, s, history, id);
    }
  }

  lemma InvIsDistinct(s: FilterState)
    requires Inv(s)
    ensures DistinctPredicates(s.predicates)
  {
  }

  lemma CurrentHas(s: FilterState, id: string)
    requires id in s.revisions
    ensures (id, s.revisions[id]) in Current(s)
  {
  }

  /** Nothing recorded anew means nothing changed at all. */
  lemma UnchangedRevisions(s: FilterState, doc: Document, reading: Reading)
    requires Inv(s) && ApplyDelta(s, doc, reading).Some?
    requires ApplyDelta(s, doc, reading).value.revisions == s.revisions
    ensures ApplyDelta(s, doc, reading).value == s
  {
    hide UpdatesOf, Parsed, Sound;
    AcceptedIsCommittable(s, doc, reading);
    var ps := Parsed(s.scan, doc, reading, s.revisions, UpdatesOf(doc).value).value;
    if ps != [] {
      PatchesAreRecorded(s, ps);
    }
  }

  lemma PatchesAreRecorded(s: FilterState, ps: seq<Patch>)
    requires Committable(s, ps) && ps != []
    ensures Commit(s, ps).revisions != s.revisions
  {
    hide Sound;
    var p := ps[|ps| - 1];
    assert Commit(s, ps).revisions[p.id] == p.revision;
  }

  lemma SupportsAfterStep(snapshot: FilterState, s: FilterState, history: seq<Document>, doc: Document,
                          reading: Reading)
    requires Inv(s) && Supports(snapshot, s, history) && ApplyDelta(s, doc, reading).Some?
    ensures var t := ApplyDelta(s, doc, reading).value;
            Supports(snapshot, t, Keep(history + [doc], Current(t)))
  {
    hide ApplyDelta, Inv, UpdatesOf, Keep, Current, Carried, Accounted, Offer, TargetsNone, DistinctIds;
    var t := ApplyDelta(s, doc, reading).value;
    var kept := Keep(history + [doc], Current(t));
    KeepKeepsOnlyMembers(history + [doc], Current(t));
    StepKeepsInv(s, doc, reading);
    AcceptedIsAdmissible(s, doc, reading);
    forall id
      ensures Accounted(snapshot, t, kept, id)
    {
      AccountedAfterStep(snapshot, s, history, doc, reading, id);
    }
    forall d, id, r | d in kept && (id, r) in Carried(d)
      ensures id in t.revisions && r <= t.revisions[id]
    {
      if d in history {
        assert id in s.revisions;
      } else {
        AccountedAfterStep(snapshot, s, history, doc, reading, id);
      }
    }
    if t.revisions == snapshot.revisions {
      assert s.revisions == snapshot.revisions;
      UnchangedRevisions(s, doc, reading);
    }
  }

  lemma AcceptedIsAdmissible(s: FilterState, doc: Document, reading: Reading)
    requires ApplyDelta(s, doc, reading).Some?
    ensures Admissible(s, doc) && DistinctIds(UpdatesOf(doc).value)
  {
    hide UpdatesOf, Parsed;
  }

  // ---- The recorded order ----------------------------------------------------------------------

  lemma {:induction false} AsManyIds(ps: seq<Predicate>)
    requires DistinctPredicates(ps)
    ensures |LiveIds(ps)| == |ps|
  {
    if ps != [] {
      var k := |ps| - 1;
      AsManyIds(ps[..k]);
      assert ps == ps[..k] + [ps[k]];
      assert LiveIds(ps) == LiveIds(ps[..k]) + {ps[k].id};
      assert ps[k].id !in LiveIds(ps[..k]);
    }
  }

  lemma SameLiveIds(a: seq<Predicate>, b: seq<Predicate>)
    requires DistinctPredicates(a) && DistinctPredicates(b) && forall id :: LiveAt(a, id) == LiveAt(b, id)
    ensures forall p :: p in a <==> p in b
    ensures LiveIds(a) == LiveIds(b) && |a| == |b|
  {
    hide LiveAt, DistinctPredicates;
    forall p: Predicate
      ensures p in a <==> p in b
    {
      LiveAtIsMembership(a, p.id);
      LiveAtIsMembership(b, p.id);
    }
    AsManyIds(a);
    AsManyIds(b);
  }

  lemma IdsOfOrder(ps: seq<Predicate>)
    ensures IdSet(IdOrder(ps)) == LiveIds(ps)
  {
    var order := IdOrder(ps);
    assert forall i :: 0 <= i < |order| ==> order[i] == ps[i].id;
    forall p | p in ps
      ensures p.id in IdSet(order)
    {
      var i :| 0 <= i < |ps| && ps[i] == p;
      assert order[i] == p.id;
    }
  }

  /** Restoring the recorded order turns states that agree at every id into equal states. */
  lemma OrderRestored(t: FilterState, s: FilterState)
    requires DistinctPredicates(t.predicates) && DistinctPredicates(s.predicates)
    requires t == s.(predicates := t.predicates)
    requires forall id :: LiveAt(t.predicates, id) == LiveAt(s.predicates, id)
    ensures WithOrder(t, IdOrder(s.predicates)) == Some(s)
  {
    hide LiveAt, DistinctPredicates;
    var order := IdOrder(s.predicates);
    SameLiveIds(t.predicates, s.predicates);
    IdsOfOrder(s.predicates);
    forall i | 0 <= i < |order|
      ensures LiveAt(t.predicates, order[i]) == Some(s.predicates[i])
      ensures IdOrder(t.predicates) == order ==> t.predicates[i] == s.predicates[i]
    {
      LiveAtIsMembership(s.predicates, order[i]);
      LiveAtIsMembership(t.predicates, order[i]);
      assert IdOrder(t.predicates) == order ==> IdOrder(t.predicates)[i] == t.predicates[i].id;
    }
    if IdOrder(t.predicates) == order {
      assert t.predicates == s.predicates;
    } else {
      assert WithOrder(t, order).value.predicates == s.predicates;
    }
  }

  lemma SupportsKeepsFrame(snapshot: FilterState, s: FilterState, history: seq<Document>)
    requires Supports(snapshot, s, history)
    ensures s.scan == snapshot.scan && s.context == snapshot.context && s.requiredIds == snapshot.requiredIds
  {
  }

  lemma NothingApplied(s: FilterState)
    ensures ApplyAll(s, [], REPLAY) == Some(s)
  {
  }

  lemma EmptyHistory(snapshot: FilterState, s: FilterState)
    requires Supports(snapshot, s, [])
    ensures s == snapshot
  {
    hide LiveAt, Admissible;
    forall id: string
      ensures id in s.revisions <==> id in snapshot.revisions
      ensures id in s.revisions && id in snapshot.revisions ==> s.revisions[id] == snapshot.revisions[id]
    {
      assert Accounted(snapshot, s, [], id);
    }
  }

  // ---- Whole streams ---------------------------------------------------------------------------

  /** Any number of turns, each carrying one accepted delta. */
  function StreamRun(snapshot: FilterState, docs: seq<Document>, reading: Reading): Option<Stream> {
    if docs == [] then Some(Stream(snapshot, [], IdOrder(snapshot.predicates)))
    else
      var before :- StreamRun(snapshot, docs[..|docs| - 1], reading);
      var doc := docs[|docs| - 1];
      var t :- ApplyDelta(before.filters, doc, reading);
      Some(Stream(t, Keep(before.history + [doc], Current(t)), IdOrder(t.predicates)))
  }

  lemma {:induction false} StreamKeepsSupport(snapshot: FilterState, docs: seq<Document>, reading: Reading)
    requires Inv(snapshot) && StreamRun(snapshot, docs, reading).Some?
    ensures var r := StreamRun(snapshot, docs, reading).value;
            && Inv(r.filters) && Supports(snapshot, r.filters, r.history) && r.order == IdOrder(r.filters.predicates)
            && ApplyAll(snapshot, docs, reading) == Some(r.filters)
  {
    hide ApplyDelta, Inv, Keep, Current, Supports;
    if docs == [] {
      SupportsAtFirst(snapshot);
    } else {
      var k := |docs| - 1;
      StreamKeepsSupport(snapshot, docs[..k], reading);
      var before := StreamRun(snapshot, docs[..k], reading).value;
      SupportsKeepsFrame(snapshot, before.filters, before.history);
      StepKeepsInv(before.filters, docs[k], reading);
      SupportsAfterStep(snapshot, before.filters, before.history, docs[k], reading);
    }
  }

  lemma SupportsAtFirst(snapshot: FilterState)
    ensures Supports(snapshot, snapshot, [])
  {
  }
}
