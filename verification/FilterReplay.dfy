/**
 When a compacted history rebuilds the filters of its stream: exactly when every update that re-reading it
 meets as applicable validates, within the node limit of its document.
 */
module FilterReplay {
  import opened Common
  import opened FilterModel
  import opened FilterParser
  import opened FilterDelta
  import opened FilterSnapshot
  import opened FilterRuns
  import opened FilterConvergence
  import opened FilterHistory

  // ---- The condition, read off the snapshot and the history alone ------------------------------

  /** The snapshot, or a delta before, has recorded an id at this revision or a later one. */
  predicate Covered(snapshot: FilterState, earlier: seq<Document>, id: string, revision: nat) {
    || (id in snapshot.revisions && revision <= snapshot.revisions[id])
    || exists c <- CarriedBy(earlier) :: c.0 == id && revision <= c.1
  }

  /** The nodes of the updates that are not covered, where they validate. */
  function FreshNodes(snapshot: FilterState, earlier: seq<Document>, doc: Document, us: seq<Update>): nat {
    if us == [] then 0
    else
      var u := us[|us| - 1];
      FreshNodes(snapshot, earlier, doc, us[..|us| - 1])
      + if Covered(snapshot, earlier, u.id, u.revision) then 0
        else PatchNodes(PatchOf(snapshot.scan, doc, REPLAY, map[], u).GetOr([]))
  }

  /** After these deltas a document is read again: each update not covered yet validates, and all of them fit. */
  predicate Rereads(snapshot: FilterState, earlier: seq<Document>, doc: Document) {
    && UpdatesOf(doc).Some?
    && (forall u <- UpdatesOf(doc).value ::
          Covered(snapshot, earlier, u.id, u.revision) || PatchOf(snapshot.scan, doc, REPLAY, map[], u).Some?)
    && FreshNodes(snapshot, earlier, doc, UpdatesOf(doc).value) <= MAX_NODES
  }

  predicate HistoryRereads(snapshot: FilterState, history: seq<Document>) {
    forall i :: 0 <= i < |history| ==> Rereads(snapshot, history[..i], history[i])
  }

  // ---- What re-reading records -----------------------------------------------------------------

  lemma CoveredByOneMore(snapshot: FilterState, earlier: seq<Document>, doc: Document, id: string, r: nat)
    requires UpdatesOf(doc).Some? && DistinctIds(UpdatesOf(doc).value)
    ensures Covered(snapshot, earlier + [doc], id, r) <==>
              || Covered(snapshot, earlier, id, r)
              || var u := UpdateFor(UpdatesOf(doc).value, id); u.Some? && r <= u.value.revision
  {
    hide UpdatesOf, Carried;
    assert (earlier + [doc])[..|earlier|] == earlier;
    CarriedAt(doc, id);
    var u := UpdateFor(UpdatesOf(doc).value, id);
    if u.Some? && r <= u.value.revision {
      assert (id, u.value.revision) in CarriedBy(earlier + [doc]);
    }
  }

  /** A revision is recorded, at least, exactly when the snapshot or some delta carries it, stale updates included. */
  lemma {:induction false} RecordedIsCovered(snapshot: FilterState, docs: seq<Document>, id: string, r: nat)
    requires DistinctPredicates(snapshot.predicates) && ApplyAll(snapshot, docs, REPLAY).Some?
    ensures var t := ApplyAll(snapshot, docs, REPLAY).value;
            && DistinctPredicates(t.predicates) && t == snapshot.(predicates := t.predicates, revisions := t.revisions)
            && (id in t.revisions && r <= t.revisions[id] <==> Covered(snapshot, docs, id, r))
  {
    hide ApplyDelta, UpdatesOf, DistinctPredicates, Carried, LiveAt, Offer;
    if docs != [] {
      var k := |docs| - 1;
      var before := ApplyAll(snapshot, docs[..k], REPLAY).value;
      RecordedIsCovered(snapshot, docs[..k], id, r);
      StepTakes(before, docs[k], REPLAY, id);
      CoveredByOneMore(snapshot, docs[..k], docs[k], id, r);
      CarriedAt(docs[k], id);
      assert docs[..k] + [docs[k]] == docs;
      hide Covered;
    }
  }

  // ---- One document ----------------------------------------------------------------------------

  lemma {:induction false} ParsedExactly(snapshot: FilterState, earlier: seq<Document>, doc: Document,
                                         revisions: map<string, nat>, us: seq<Update>)
    requires forall u <- us :: Stale(u, revisions) <==> Covered(snapshot, earlier, u.id, u.revision)
    ensures var ps := Parsed(snapshot.scan, doc, REPLAY, revisions, us);
            && (ps.Some? <==> forall u <- us ::
                  Covered(snapshot, earlier, u.id, u.revision) || PatchOf(snapshot.scan, doc, REPLAY, map[], u).Some?)
            && (ps.Some? ==> PatchNodes(ps.value) == FreshNodes(snapshot, earlier, doc, us))
  {
    hide Covered, PatchOf, Stale, PatchNodes;
    if us == [] {
      NoNodes();
    } else {
      var init, u := us[..|us| - 1], us[|us| - 1];
      assert us == init + [u];
      ParsedExactly(snapshot, earlier, doc, revisions, init);
      PatchUnlessStale(snapshot.scan, doc, revisions, u);
      var ps := Parsed(snapshot.scan, doc, REPLAY, revisions, init);
      var last := PatchOf(snapshot.scan, doc, REPLAY, revisions, u);
      if ps.Some? && last.Some? {
        NodesOfAppend(ps.value, last.value);
        NoNodes();
      }
    }
  }

  lemma NoNodes()
    ensures PatchNodes([]) == 0
  {
  }

  lemma PatchUnlessStale(scan: Scan, doc: Document, revisions: map<string, nat>, u: Update)
    ensures var p := PatchOf(scan, doc, REPLAY, revisions, u);
            if Stale(u, revisions) then p == Some([]) else p == PatchOf(scan, doc, REPLAY, map[], u)
    ensures PatchOf(scan, doc, REPLAY, revisions, u).Some? ==> |PatchOf(scan, doc, REPLAY, revisions, u).value| <= 1
  {
    hide ElaboratePredicate;
  }

  /** A document the stream has accepted is accepted again exactly when it rereads. */
  lemma ReplayedExactly(snapshot: FilterState, s: FilterState, earlier: seq<Document>, doc: Document)
    requires Inv(snapshot) && ApplyAll(snapshot, earlier, REPLAY).Some? && Admissible(snapshot, doc)
    requires DistinctIds(UpdatesOf(doc).value) && |s.revisions| <= MAX_PREDICATE_IDS
    requires ApplyAll(snapshot, earlier, REPLAY).value.revisions.Keys + DocIds(doc) <= s.revisions.Keys
    ensures ApplyDelta(ApplyAll(snapshot, earlier, REPLAY).value, doc, REPLAY).Some?
            <==> Rereads(snapshot, earlier, doc)
  {
    hide ApplyAll, UpdatesOf, Parsed, PatchNodes, Commit, Covered, PatchOf, Inv, FreshNodes, Stale, DistinctIds,
      TargetsNone;
    InvIsDistinct(snapshot);
    var t, us := ApplyAll(snapshot, earlier, REPLAY).value, UpdatesOf(doc).value;
    RecordedIsCovered(snapshot, earlier, "", 0);
    forall u <- us ensures Stale(u, t.revisions) <==> Covered(snapshot, earlier, u.id, u.revision) {
      RecordedIsCovered(snapshot, earlier, u.id, u.revision);
      StaleIsRecorded(u, t.revisions);
    }
    ParsedExactly(snapshot, earlier, doc, t.revisions, us);
    if Parsed(snapshot.scan, doc, REPLAY, t.revisions, us).Some? {
      ParsedIds(snapshot.scan, doc, REPLAY, t.revisions, us);
      SubsetIsSmaller(t.revisions.Keys + Ids(us), s.revisions.Keys);
      assert |s.revisions| == |s.revisions.Keys|;
    }
  }

  lemma StaleIsRecorded(u: Update, revisions: map<string, nat>)
    ensures Stale(u, revisions) <==> u.id in revisions && u.revision <= revisions[u.id]
  {
  }

  // ---- The whole history -----------------------------------------------------------------------

  /** The ids that re-reading a part of the history records are all recorded in the state it supports. */
  lemma HistoryRecordsNothingNew(snapshot: FilterState, s: FilterState, history: seq<Document>, k: nat)
    requires Inv(snapshot) && Supports(snapshot, s, history) && k <= |history|
    requires ApplyAll(snapshot, history[..k], REPLAY).Some?
    ensures ApplyAll(snapshot, history[..k], REPLAY).value.revisions.Keys <= s.revisions.Keys
    ensures forall d <- history :: DocIds(d) <= s.revisions.Keys
  {
    hide ApplyAll, UpdatesOf, Accounted, Carried, Inv;
    InvIsDistinct(snapshot);
    RunRecords(snapshot, history[..k], REPLAY);
    forall d <- history, id <- DocIds(d) ensures id in s.revisions {
      CarriedAt(d, id);
      UpdateForIsPresent(UpdatesOf(d).value, id);
      assert (id, UpdateFor(UpdatesOf(d).value, id).value.revision) in Carried(d);
    }
    forall id <- AllIds(history[..k]) ensures id in s.revisions {
      var d :| d in history[..k] && id in DocIds(d);
      assert d in history;
    }
  }

  lemma NextIsReplayedExactly(snapshot: FilterState, s: FilterState, history: seq<Document>, k: nat)
    requires Inv(snapshot) && Inv(s) && Supports(snapshot, s, history) && k < |history|
    requires ApplyAll(snapshot, history[..k], REPLAY).Some?
    ensures ApplyAll(snapshot, history[..k + 1], REPLAY).Some? <==> Rereads(snapshot, history[..k], history[k])
  {
    hide ApplyDelta, Inv, Supports, Rereads, DocIds, Admissible, UpdatesOf;
    assert history[..k + 1][..k] == history[..k];
    HistoryRecordsNothingNew(snapshot, s, history, k);
    SupportedIsAdmissible(snapshot, s, history, history[k]);
    hide ApplyAll;
    ReplayedExactly(snapshot, s, history[..k], history[k]);
  }

  lemma {:induction false} ReplayAcceptedExactly(snapshot: FilterState, s: FilterState, history: seq<Document>, k: nat)
    requires Inv(snapshot) && Inv(s) && Supports(snapshot, s, history) && k <= |history|
    ensures ApplyAll(snapshot, history[..k], REPLAY).Some? <==>
              forall i :: 0 <= i < k ==> Rereads(snapshot, history[..i], history[i])
  {
    hide ApplyDelta, Inv, Supports, Rereads;
    if k > 0 {
      ReplayAcceptedExactly(snapshot, s, history, k - 1);
      assert history[..k][..k - 1] == history[..k - 1];
      if ApplyAll(snapshot, history[..k - 1], REPLAY).Some? {
        NextIsReplayedExactly(snapshot, s, history, k - 1);
      }
    }
  }

  lemma SupportedIsAdmissible(snapshot: FilterState, s: FilterState, history: seq<Document>, doc: Document)
    requires Supports(snapshot, s, history) && Inv(s) && doc in history
    ensures Admissible(snapshot, doc) && DistinctIds(UpdatesOf(doc).value) && |s.revisions| <= MAX_PREDICATE_IDS
  {
    hide UpdatesOf, Accounted;
  }

  /**
   Re-reading at one id, when nothing carried is above `r`: the entry of the snapshot if that is at `r` already,
   the offer of the first delta that carries `r` if there is one, and otherwise something older.
   */
  lemma {:induction false} RereadAt(snapshot: FilterState, docs: seq<Document>, id: string, r: nat)
    requires DistinctPredicates(snapshot.predicates) && ApplyAll(snapshot, docs, REPLAY).Some?
    requires forall q :: (id, q) in CarriedBy(docs) ==> q <= r
    requires id in snapshot.revisions ==> snapshot.revisions[id] <= r
    ensures var t, first := ApplyAll(snapshot, docs, REPLAY).value, FirstCarrier(docs, (id, r));
            && DistinctPredicates(t.predicates) && t.scan == snapshot.scan
            && if id in snapshot.revisions && snapshot.revisions[id] == r then At(t, id) == At(snapshot, id)
               else if first.Some? then At(t, id) == Offer(snapshot.scan, first.value, id) && id in t.revisions
                   && t.revisions[id] == r
               else id in t.revisions ==> t.revisions[id] < r
  {
    hide ApplyDelta, UpdatesOf, DistinctPredicates, Carried, LiveAt, Offer;
    if docs != [] {
      var k := |docs| - 1;
      RereadAt(snapshot, docs[..k], id, r);
      StepTakes(ApplyAll(snapshot, docs[..k], REPLAY).value, docs[k], REPLAY, id);
      CarriedAt(docs[k], id);
      LastIsCarried(docs, id);
    }
  }

  lemma LastIsCarried(docs: seq<Document>, id: string)
    requires docs != [] && UpdatesOf(docs[|docs| - 1]).Some? && DistinctIds(UpdatesOf(docs[|docs| - 1]).value)
    ensures var u := UpdateFor(UpdatesOf(docs[|docs| - 1]).value, id); u.Some? ==>
            (id, u.value.revision) in CarriedBy(docs)
    ensures forall q :: (id, q) in CarriedBy(docs[..|docs| - 1]) ==> (id, q) in CarriedBy(docs)
  {
    hide UpdatesOf, Carried;
    CarriedAt(docs[|docs| - 1], id);
    var u := UpdateFor(UpdatesOf(docs[|docs| - 1]).value, id);
    assert u.Some? ==> (id, u.value.revision) in Carried(docs[|docs| - 1]);
  }

  lemma {:induction false} NothingCarried(snapshot: FilterState, docs: seq<Document>, id: string)
    requires DistinctPredicates(snapshot.predicates) && ApplyAll(snapshot, docs, REPLAY).Some?
    requires forall q :: (id, q) !in CarriedBy(docs)
    ensures At(ApplyAll(snapshot, docs, REPLAY).value, id) == At(snapshot, id)
    ensures DistinctPredicates(ApplyAll(snapshot, docs, REPLAY).value.predicates)
  {
    hide ApplyDelta, UpdatesOf, DistinctPredicates, Carried, LiveAt, Offer;
    if docs != [] {
      var k := |docs| - 1;
      NothingCarried(snapshot, docs[..k], id);
      StepTakes(ApplyAll(snapshot, docs[..k], REPLAY).value, docs[k], REPLAY, id);
      CarriedAt(docs[k], id);
      LastIsCarried(docs, id);
    }
  }

  lemma RebuiltAt(snapshot: FilterState, s: FilterState, history: seq<Document>, id: string)
    requires Inv(snapshot) && Supports(snapshot, s, history)
    requires ApplyAll(snapshot, history, REPLAY).Some?
    ensures At(ApplyAll(snapshot, history, REPLAY).value, id) == At(s, id)
  {
    hide ApplyAll, Inv, LiveAt, Carried, Offer, FirstCarrier, Admissible, DistinctPredicates, UpdatesOf;
    InvIsDistinct(snapshot);
    assert Accounted(snapshot, s, history, id);
    forall q | (id, q) in CarriedBy(history) ensures id in s.revisions && q <= s.revisions[id] {
      FirstCarrierExists(history, (id, q));
      assert (id, q) in Carried(FirstCarrier(history, (id, q)).value);
    }
    if id in s.revisions {
      RereadAt(snapshot, history, id, s.revisions[id]);
    } else {
      NothingCarried(snapshot, history, id);
    }
  }

  /** Re-reading a supporting history gives the very filters, or is refused, and which of the two the condition says. */
  lemma HistoryReplaysExactly(snapshot: FilterState, s: FilterState, history: seq<Document>)
    requires Inv(snapshot) && Inv(s) && Supports(snapshot, s, history)
    ensures ReplayHistory(snapshot, history, IdOrder(s.predicates))
            == if HistoryRereads(snapshot, history) then Some(s) else None
  {
    hide ApplyAll, Supports, Inv, At, LiveAt, WithOrder, Rereads;
    assert history[..|history|] == history;
    ReplayAcceptedExactly(snapshot, s, history, |history|);
    if HistoryRereads(snapshot, history) {
      var t := ApplyAll(snapshot, history, REPLAY).value;
      forall id: string
        ensures At(t, id) == At(s, id)
      {
        RebuiltAt(snapshot, s, history, id);
      }
      AllKeepsInv(snapshot, history, REPLAY);
      SameAtEveryId(t, s);
      RunRecords(snapshot, history, REPLAY) by {
        InvIsDistinct(snapshot);
      }
      SupportsKeepsFrame(snapshot, s, history);
      if history == [] {
        EmptyHistory(snapshot, s);
        NothingApplied(snapshot);
      } else {
        InvIsDistinct(t);
        InvIsDistinct(s);
        OrderRestored(t, s);
      }
    }
  }

  // ---- Whole streams ---------------------------------------------------------------------------

  /**
   After any number of turns, re-reading the compacted history gives exactly the filters of the stream if
   every update it meets uncovered validates and they fit, and is refused otherwise.
   */
  lemma CompactedHistoryReplaysExactly(snapshot: FilterState, docs: seq<Document>, reading: Reading)
    requires Inv(snapshot) && StreamRun(snapshot, docs, reading).Some?
    ensures var r := StreamRun(snapshot, docs, reading).value;
            && ReplayHistory(snapshot, r.history, r.order)
               == (if HistoryRereads(snapshot, r.history) then Some(r.filters) else None)
            && ApplyAll(snapshot, docs, reading) == Some(r.filters)
  {
    hide StreamRun, ApplyAll, ReplayHistory, Inv, Supports, HistoryRereads;
    StreamKeepsSupport(snapshot, docs, reading);
    var r := StreamRun(snapshot, docs, reading).value;
    HistoryReplaysExactly(snapshot, r.filters, r.history);
  }

  lemma {:induction false} FreshNodesAreFewer(snapshot: FilterState, earlier: seq<Document>, doc: Document,
                                              us: seq<Update>)
    requires Parsed(snapshot.scan, doc, REPLAY, map[], us).Some?
    ensures FreshNodes(snapshot, earlier, doc, us) <= PatchNodes(Parsed(snapshot.scan, doc, REPLAY, map[], us).value)
  {
    hide Covered, PatchOf, PatchNodes;
    if us != [] {
      var init, u := us[..|us| - 1], us[|us| - 1];
      FreshNodesAreFewer(snapshot, earlier, doc, init);
      PatchUnlessStale(snapshot.scan, doc, map[], u);
      NodesOfAppend(Parsed(snapshot.scan, doc, REPLAY, map[], init).value,
                    PatchOf(snapshot.scan, doc, REPLAY, map[], u).value);
    }
  }

  lemma ValidRereads(snapshot: FilterState, earlier: seq<Document>, doc: Document)
    requires Valid(snapshot.scan, doc, REPLAY)
    ensures Rereads(snapshot, earlier, doc)
  {
    hide Covered, PatchOf, PatchNodes, UpdatesOf, Parsed, FreshNodes;
    FreshNodesAreFewer(snapshot, earlier, doc, UpdatesOf(doc).value);
    forall u <- UpdatesOf(doc).value ensures PatchOf(snapshot.scan, doc, REPLAY, map[], u).Some? {
      ValidPatch(snapshot.scan, doc, REPLAY, u);
    }
  }

  lemma {:induction false} StreamKeepsMembers(snapshot: FilterState, docs: seq<Document>, reading: Reading)
    requires StreamRun(snapshot, docs, reading).Some?
    ensures forall d <- StreamRun(snapshot, docs, reading).value.history :: d in docs
  {
    hide ApplyDelta, Keep, Current;
    if docs != [] {
      var init, doc := docs[..|docs| - 1], docs[|docs| - 1];
      StreamKeepsMembers(snapshot, init, reading);
      var before := StreamRun(snapshot, init, reading).value;
      KeepKeepsOnlyMembers(before.history + [doc], Current(ApplyDelta(before.filters, doc, reading).value));
      assert docs == init + [doc];
    }
  }

  /** In particular the history is enough when the deltas of the stream all validate. */
  lemma CompactedHistoryIsEnough(snapshot: FilterState, docs: seq<Document>, reading: Reading)
    requires Inv(snapshot) && StreamRun(snapshot, docs, reading).Some?
    requires forall d <- docs :: Valid(snapshot.scan, d, REPLAY)
    ensures var r := StreamRun(snapshot, docs, reading).value;
            && ReplayHistory(snapshot, r.history, r.order) == Some(r.filters)
            && ApplyAll(snapshot, docs, reading) == Some(r.filters)
  {
    hide StreamRun, ApplyAll, ReplayHistory, Inv, Valid, Rereads;
    var history := StreamRun(snapshot, docs, reading).value.history;
    CompactedHistoryReplaysExactly(snapshot, docs, reading);
    StreamKeepsMembers(snapshot, docs, reading);
    forall i | 0 <= i < |history| ensures Rereads(snapshot, history[..i], history[i]) {
      ValidRereads(snapshot, history[..i], history[i]);
    }
  }
}
