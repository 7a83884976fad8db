/**
 Whole runs of a scan: what every delta keeps, why the order of delivery does not matter, and why
 the accepted documents can be read again later without binding their expressions.
 */
module FilterRuns {
  import opened Common
  import opened FilterModel
  import opened FilterParser
  import opened FilterDelta
  import opened FilterSnapshot

  /** What a scan remembers of one id: its last applied revision, and its predicate unless it was removed. */
  datatype Entry = Entry(revision: nat, live: Option<Predicate>)

  function LiveAt(ps: seq<Predicate>, id: string): Option<Predicate> {
    var i :- IndexOf(ps, id);
    Some(ps[i])
  }

  /** The live-predicate map and the revision map of a state, seen at one id. */
  function At(s: FilterState, id: string): Option<Entry> {
    if id in s.revisions then Some(Entry(s.revisions[id], LiveAt(s.predicates, id))) else None
  }

  // ---- One patch, one update, one delta --------------------------------------------------------

  lemma {:induction false} IndexOfIsUnique(ps: seq<Predicate>, id: string, i: nat)
    requires DistinctPredicates(ps) && i < |ps| && ps[i].id == id
    ensures IndexOf(ps, id) == Some(i)
  {
  }

  lemma LiveAtIsMembership(ps: seq<Predicate>, id: string)
    requires DistinctPredicates(ps)
    ensures forall p :: LiveAt(ps, id) == Some(p) <==> p in ps && p.id == id
  {
    forall p | p in ps && p.id == id
      ensures LiveAt(ps, id) == Some(p)
    {
      var i :| 0 <= i < |ps| && ps[i] == p;
      IndexOfIsUnique(ps, id, i);
    }
  }

  /** The members of a dictionary after one patch. */
  lemma InstallMembers(ps: seq<Predicate>, patch: Patch)
    requires DistinctPredicates(ps) && (patch.install.Some? ==> patch.install.value.id == patch.id)
    ensures DistinctPredicates(Install(ps, patch))
    ensures forall p :: p in Install(ps, patch) <==> (p in ps && p.id != patch.id) || Some(p) == patch.install
  {
    hide IndexOf;
    var qs := Install(ps, patch);
    match (IndexOf(ps, patch.id), patch.install) {
      case (None, None) =>
      case (None, Some(p)) =>
        assert qs[|ps|] == p;
      case (Some(k), Some(p)) =>
        assert qs[k] == p;
        forall q | q in ps && q.id != patch.id
          ensures q in qs
        {
          var j :| 0 <= j < |ps| && ps[j] == q;
          assert qs[j] == q;
        }
      case (Some(k), None) =>
        forall q | q in ps && q.id != patch.id
          ensures q in qs
        {
          var j :| 0 <= j < |ps| && ps[j] == q;
          assert qs[if j < k then j else j - 1] == q;
        }
    }
  }

  lemma InstallAt(ps: seq<Predicate>, patch: Patch, id: string)
    requires DistinctPredicates(ps) && (patch.install.Some? ==> patch.install.value.id == patch.id)
    ensures DistinctPredicates(Install(ps, patch))
    ensures LiveAt(Install(ps, patch), id) == if id == patch.id then patch.install else LiveAt(ps, id)
  {
    hide Install, LiveAt;
    InstallMembers(ps, patch);
    LiveAtIsMembership(ps, id);
    LiveAtIsMembership(Install(ps, patch), id);
    var l, l' := LiveAt(ps, id), LiveAt(Install(ps, patch), id);
    assert l.Some? ==> l == Some(l.value);
    assert l'.Some? ==> l' == Some(l'.value);
  }

  function PatchFor(ps: seq<Patch>, id: string): Option<Patch> {
    if ps == [] then None
    else if ps[|ps| - 1].id == id then Some(ps[|ps| - 1])
    else PatchFor(ps[..|ps| - 1], id)
  }

  ghost predicate WellPatched(ps: seq<Patch>) {
    forall i :: 0 <= i < |ps| && ps[i].install.Some? ==>
      var p := ps[i].install.value;
      p.id == ps[i].id && p.revision == ps[i].revision && p.mode.Advisory?
  }

  lemma {:induction false} CommitAt(s: FilterState, ps: seq<Patch>, id: string)
    requires DistinctPredicates(s.predicates) && WellPatched(ps)
    ensures DistinctPredicates(Commit(s, ps).predicates)
    ensures At(Commit(s, ps), id) == match PatchFor(ps, id)
                                     case None => At(s, id)
                                     case Some(p) => Some(Entry(p.revision, p.install))
    ensures Commit(s, ps).revisions.Keys == s.revisions.Keys + PatchIds(ps)
    ensures Commit(s, ps) == s.(predicates := Commit(s, ps).predicates, revisions := Commit(s, ps).revisions)
  {
    hide Install, LiveAt;
    if ps != [] {
      var k := |ps| - 1;
      CommitAt(s, ps[..k], id);
      InstallAt(Commit(s, ps[..k]).predicates, ps[k], id);
      assert PatchIds(ps) == PatchIds(ps[..k]) + {ps[k].id};
    }
  }

  function UpdateFor(us: seq<Update>, id: string): Option<Update> {
    if us == [] then None
    else if us[|us| - 1].id == id then Some(us[|us| - 1])
    else UpdateFor(us[..|us| - 1], id)
  }

  function Ids(us: seq<Update>): set<string> { set u <- us :: u.id }

  lemma {:induction false} UpdateForIsPresent(us: seq<Update>, id: string)
    ensures UpdateFor(us, id).Some? <==> id in Ids(us)
    ensures UpdateFor(us, id).Some? ==> UpdateFor(us, id).value in us && UpdateFor(us, id).value.id == id
  {
    if us != [] {
      UpdateForIsPresent(us[..|us| - 1], id);
      assert us == us[..|us| - 1] + [us[|us| - 1]];
    }
  }

  /** The id, revision and mode that the syntax check read are the ones the predicate will carry. */
  ghost predicate Agrees(u: Update) {
    u.body.Some? ==>
      var m := u.body.value;
      && "id" in m && m["id"] == JString(u.id) && "revision" in m && m["revision"] == JInt(u.revision)
      && "mode" in m && m["mode"] == JString("advisory")
  }

  lemma SyntaxAgrees(raw: Json)
    requires SyntaxOf(raw).Some?
    ensures Agrees(SyntaxOf(raw).value)
  {
    hide SourceOf;
  }

  lemma {:induction false} AllSyntaxAgrees(raws: seq<Json>)
    requires SyntaxOfAll(raws).Some?
    ensures forall i :: 0 <= i < |raws| ==> Agrees(SyntaxOfAll(raws).value[i])
  {
    hide SyntaxOf, Agrees;
    forall i | 0 <= i < |raws|
      ensures Agrees(SyntaxOfAll(raws).value[i])
    {
      SyntaxPrefix(raws, i);
      SyntaxAgrees(raws[i]);
    }
  }

  lemma PatchAgrees(scan: Scan, doc: Document, reading: Reading, revisions: map<string, nat>, u: Update)
    requires Agrees(u) && PatchOf(scan, doc, reading, revisions, u).Some?
    ensures WellPatched(PatchOf(scan, doc, reading, revisions, u).value)
  {
    hide Elaborate, HasKeys, SourceOf, RequiresSession;
    if !Stale(u, revisions) && u.body.Some? {
      var p := ElaboratePredicate(scan, doc.row, doc.context, reading, u.body.value, true).value;
      assert p.id == u.id && p.revision == u.revision && p.mode == Advisory;
    }
  }

  /** What the updates of a document call for at one id. */
  function PatchAt(scan: Scan, doc: Document, reading: Reading, revisions: map<string, nat>, us: seq<Update>,
                   id: string)
    : Option<Patch>
  {
    var u :- UpdateFor(us, id);
    var p :- PatchOf(scan, doc, reading, revisions, u);
    if p == [] then None else Some(p[0])
  }

  lemma {:induction false} ParsedAgrees(scan: Scan, doc: Document, reading: Reading, revisions: map<string, nat>,
                                        us: seq<Update>)
    requires Parsed(scan, doc, reading, revisions, us).Some?
    requires forall i :: 0 <= i < |us| ==> Agrees(us[i])
    ensures WellPatched(Parsed(scan, doc, reading, revisions, us).value)
    ensures forall i :: 0 <= i < |us| ==> PatchOf(scan, doc, reading, revisions, us[i]).Some?
  {
    hide PatchOf, Agrees;
    if us != [] {
      var k := |us| - 1;
      ParsedAgrees(scan, doc, reading, revisions, us[..k]);
      PatchAgrees(scan, doc, reading, revisions, us[k]);
      assert forall i :: 0 <= i < k ==> us[i] == us[..k][i];
    }
  }

  /** The ids that a document records anew, and the ones it leaves alone because they are stale. */
  lemma {:induction false} ParsedIds(scan: Scan, doc: Document, reading: Reading, revisions: map<string, nat>,
                                     us: seq<Update>)
    requires Parsed(scan, doc, reading, revisions, us).Some?
    ensures revisions.Keys + PatchIds(Parsed(scan, doc, reading, revisions, us).value) == revisions.Keys + Ids(us)
  {
    hide PatchOf, PatchIds, Ids;
    if us == [] {
      NoIds();
    } else {
      var k := |us| - 1;
      ParsedIds(scan, doc, reading, revisions, us[..k]);
      var init := Parsed(scan, doc, reading, revisions, us[..k]).value;
      var last := PatchOf(scan, doc, reading, revisions, us[k]).value;
      assert us == us[..k] + [us[k]];
      IdsOfOneMore(us[..k], us[k]);
      PatchIdsOfAppend(init, last);
      if last != [] {
        assert last == [last[0]];
        PatchIdsOfOne(last[0]);
      }
    }
  }

  lemma NoIds()
    ensures PatchIds([]) == {} && Ids([]) == {}
  {
  }

  lemma IdsOfOneMore(us: seq<Update>, u: Update)
    ensures Ids(us + [u]) == Ids(us) + {u.id}
  {
  }

  lemma PatchIdsOfAppend(a: seq<Patch>, b: seq<Patch>)
    ensures PatchIds(a + b) == PatchIds(a) + PatchIds(b)
    ensures PatchIds([]) == {}
  {
  }

  lemma PatchIdsOfOne(p: Patch)
    ensures PatchIds([p]) == {p.id}
  {
  }

  /** The patches of a document, one id at a time. */
  lemma {:induction false} ParsedAt(scan: Scan, doc: Document, reading: Reading, revisions: map<string, nat>,
                                    us: seq<Update>, id: string)
    requires Parsed(scan, doc, reading, revisions, us).Some? && DistinctIds(us)
    ensures PatchFor(Parsed(scan, doc, reading, revisions, us).value, id)
         == PatchAt(scan, doc, reading, revisions, us, id)
  {
    hide PatchOf;
    if us != [] {
      var k := |us| - 1;
      ParsedAt(scan, doc, reading, revisions, us[..k], id);
      var init := Parsed(scan, doc, reading, revisions, us[..k]).value;
      var last := PatchOf(scan, doc, reading, revisions, us[k]).value;
      if last != [] {
        assert (init + last)[..|init|] == init && (init + last)[|init|] == last[0];
      } else {
        assert init + last == init;
      }
      if us[k].id == id {
        UpdateForIsPresent(us[..k], id);
      }
    }
  }

  // ---- Invariants of every run -----------------------------------------------------------------

  ghost predicate Inv(s: FilterState) {
    && DistinctPredicates(s.predicates)
    && |s.revisions| <= MAX_PREDICATE_IDS
    && (forall i :: 0 <= i < |s.predicates| ==>
          var p := s.predicates[i];
          && Sound(p)
          && p.id in s.revisions && s.revisions[p.id] == p.revision
          && (p.mode.Required? <==> p.id in s.requiredIds))
    && (forall id :: id in s.requiredIds ==>
          id in s.revisions && s.revisions[id] == 0 && LiveAt(s.predicates, id).Some?)
  }

  function RequiredPart(ps: seq<Predicate>): seq<Predicate> {
    if ps == [] then []
    else RequiredPart(ps[..|ps| - 1]) + if ps[|ps| - 1].mode.Required? then [ps[|ps| - 1]] else []
  }

  /** What may change between an earlier and a later state of one scan. */
  ghost predicate Evolves(s: FilterState, t: FilterState) {
    && t.scan == s.scan && t.context == s.context && t.requiredIds == s.requiredIds
    && RequiredPart(t.predicates) == RequiredPart(s.predicates)
    && forall id :: id in s.revisions ==> id in t.revisions && s.revisions[id] <= t.revisions[id]
  }

  lemma {:induction false} RequiredPartOfConcat(a: seq<Predicate>, b: seq<Predicate>)
    ensures RequiredPart(a + b) == RequiredPart(a) + RequiredPart(b)
  {
    if b == [] {
      assert a + b == a;
    } else {
      var k := |b| - 1;
      RequiredPartOfConcat(a, b[..k]);
      assert (a + b)[..|a + b| - 1] == a + b[..k];
    }
  }

  lemma InstallKeepsRequired(ps: seq<Predicate>, patch: Patch)
    requires LiveAt(ps, patch.id).Some? ==> LiveAt(ps, patch.id).value.mode.Advisory?
    requires patch.install.Some? ==> patch.install.value.mode.Advisory?
    ensures RequiredPart(Install(ps, patch)) == RequiredPart(ps)
  {
    hide RequiredPart, IndexOf;
    var i := IndexOf(ps, patch.id);
    if i.Some? {
      var k := i.value;
      RequiredPartAround(ps[..k], ps[k], ps[k + 1..]);
      assert ps == ps[..k] + [ps[k]] + ps[k + 1..];
      if patch.install.Some? {
        RequiredPartAround(ps[..k], patch.install.value, ps[k + 1..]);
        assert ps[k := patch.install.value] == ps[..k] + [patch.install.value] + ps[k + 1..];
      }
    } else if patch.install.Some? {
      RequiredPartAround(ps, patch.install.value, []);
      assert ps + [patch.install.value] + [] == ps + [patch.install.value] && ps + [] == ps;
    }
  }

  lemma RequiredPartAround(a: seq<Predicate>, p: Predicate, b: seq<Predicate>)
    ensures RequiredPart(a + [p] + b) == RequiredPart(a) + (if p.mode.Required? then [p] else []) + RequiredPart(b)
    ensures RequiredPart(a + b) == RequiredPart(a) + RequiredPart(b)
  {
    RequiredPartOfConcat(a + [p], b);
    RequiredPartOfConcat(a, b);
    assert (a + [p])[..|a|] == a;
  }

  lemma {:induction false} CommitMembers(s: FilterState, ps: seq<Patch>, p: Predicate)
    requires DistinctPredicates(s.predicates) && WellPatched(ps)
    requires p in Commit(s, ps).predicates
    ensures p in s.predicates || exists i :: 0 <= i < |ps| && ps[i].install == Some(p)
  {
    hide Install;
    if ps != [] {
      var k := |ps| - 1;
      CommitAt(s, ps[..k], "");
      InstallMembers(Commit(s, ps[..k]).predicates, ps[k]);
      if p in Commit(s, ps[..k]).predicates {
        CommitMembers(s, ps[..k], p);
      } else {
        assert ps[k].install == Some(p);
      }
    }
  }

  /** The revision map and the live-predicate map after an accepted delta, seen at one id. */
  lemma StepAt(s: FilterState, doc: Document, reading: Reading, id: string)
    requires DistinctPredicates(s.predicates) && ApplyDelta(s, doc, reading).Some?
    ensures var t := ApplyDelta(s, doc, reading).value;
            var us := UpdatesOf(doc).value;
            && DistinctPredicates(t.predicates)
            && t == s.(predicates := t.predicates, revisions := t.revisions)
            && t.revisions.Keys == s.revisions.Keys + Ids(us)
            && At(t, id) == match PatchAt(s.scan, doc, reading, s.revisions, us, id)
                            case None => At(s, id)
                            case Some(p) => Some(Entry(p.revision, p.install))
  {
    hide Header, SyntaxOfAll, PatchOf, Commit, At;
    var raws := Header(doc.members, "delta", "updates").value;
    var us := SyntaxOfAll(raws).value;
    var ps := Parsed(s.scan, doc, reading, s.revisions, us).value;
    AllSyntaxAgrees(raws);
    ParsedAgrees(s.scan, doc, reading, s.revisions, us);
    ParsedIds(s.scan, doc, reading, s.revisions, us);
    ParsedAt(s.scan, doc, reading, s.revisions, us, id);
    CommitAt(s, ps, id);
  }

  lemma PatchIsSound(scan: Scan, doc: Document, reading: Reading, revisions: map<string, nat>, u: Update, p: Patch)
    requires PatchOf(scan, doc, reading, revisions, u) == Some([p])
    ensures p.install.Some? && Size(p.install.value.expression) <= MAX_NODES ==> Sound(p.install.value)
    ensures p.id == u.id && p.revision == u.revision && !Stale(u, revisions)
  {
    hide ElaboratePredicate, Sound;
    if !Stale(u, revisions) && u.body.Some? {
      ElaboratedPredicateIsSound(scan, doc.row, doc.context, reading, u.body.value, true);
    }
  }

  /** Every patch of a document comes from one of its updates. */
  lemma {:induction false} ParsedMember(scan: Scan, doc: Document, reading: Reading, revisions: map<string, nat>,
                                        us: seq<Update>, j: nat) returns (i: nat)
    requires Parsed(scan, doc, reading, revisions, us).Some?
    requires j < |Parsed(scan, doc, reading, revisions, us).value|
    ensures i < |us|
    ensures var p := Parsed(scan, doc, reading, revisions, us).value[j];
            && PatchOf(scan, doc, reading, revisions, us[i]) == Some([p])
            && (p.install.Some? ==> Size(p.install.value.expression)
                                    <= PatchNodes(Parsed(scan, doc, reading, revisions, us).value))
  {
    hide PatchOf;
    var k := |us| - 1;
    var init := Parsed(scan, doc, reading, revisions, us[..k]).value;
    var last := PatchOf(scan, doc, reading, revisions, us[k]).value;
    NodesOfAppend(init, last);
    if j < |init| {
      i := ParsedMember(scan, doc, reading, revisions, us[..k], j);
    } else {
      i := k;
      assert last == [last[0]];
      NodesOfOne(Some(last));
    }
  }

  /** What committing needs to know of the patches that reading a delta has produced. */
  ghost predicate Committable(s: FilterState, ps: seq<Patch>) {
    && WellPatched(ps)
    && |s.revisions.Keys + PatchIds(ps)| <= MAX_PREDICATE_IDS
    && forall j :: 0 <= j < |ps| ==>
         && ps[j].id !in s.requiredIds
         && (ps[j].id in s.revisions ==> s.revisions[ps[j].id] < ps[j].revision)
         && (ps[j].install.Some? ==> Sound(ps[j].install.value))
  }

  lemma AcceptedIsCommittable(s: FilterState, doc: Document, reading: Reading)
    requires ApplyDelta(s, doc, reading).Some?
    ensures var ps := Parsed(s.scan, doc, reading, s.revisions, UpdatesOf(doc).value).value;
            Committable(s, ps) && ApplyDelta(s, doc, reading).value == Commit(s, ps)
  {
    hide Header, SyntaxOfAll, PatchOf, Parsed, Commit, Sound;
    var raws := Header(doc.members, "delta", "updates").value;
    var us := SyntaxOfAll(raws).value;
    var ps := Parsed(s.scan, doc, reading, s.revisions, us).value;
    AllSyntaxAgrees(raws);
    ParsedAgrees(s.scan, doc, reading, s.revisions, us);
    forall j | 0 <= j < |ps|
      ensures && ps[j].id !in s.requiredIds
              && (ps[j].id in s.revisions ==> s.revisions[ps[j].id] < ps[j].revision)
              && (ps[j].install.Some? ==> Sound(ps[j].install.value))
    {
      var i := ParsedMember(s.scan, doc, reading, s.revisions, us, j);
      PatchIsSound(s.scan, doc, reading, s.revisions, us[i], ps[j]);
    }
  }

  lemma {:induction false} CommitKeepsRequired(s: FilterState, ps: seq<Patch>)
    requires DistinctPredicates(s.predicates) && WellPatched(ps)
    requires forall p <- s.predicates :: p.mode.Required? <==> p.id in s.requiredIds
    requires forall p <- ps :: p.id !in s.requiredIds
    ensures RequiredPart(Commit(s, ps).predicates) == RequiredPart(s.predicates)
    ensures forall p <- Commit(s, ps).predicates :: p.mode.Required? <==> p.id in s.requiredIds
  {
    hide Install, RequiredPart, LiveAt;
    if ps != [] {
      var k := |ps| - 1;
      var t := Commit(s, ps[..k]);
      CommitAt(s, ps[..k], "");
      CommitKeepsRequired(s, ps[..k]);
      InstallMembers(t.predicates, ps[k]);
      LiveAtIsMembership(t.predicates, ps[k].id);
      var l := LiveAt(t.predicates, ps[k].id);
      assert l.Some? ==> l == Some(l.value);
      InstallKeepsRequired(t.predicates, ps[k]);
    }
  }

  lemma {:induction false} PatchForIsPresent(ps: seq<Patch>, id: string)
    ensures PatchFor(ps, id).Some? ==> PatchFor(ps, id).value in ps && PatchFor(ps, id).value.id == id
    ensures PatchFor(ps, id).None? ==> id !in PatchIds(ps)
  {
    if ps != [] {
      PatchForIsPresent(ps[..|ps| - 1], id);
      assert ps == ps[..|ps| - 1] + [ps[|ps| - 1]];
    }
  }

  lemma EntryAfterCommit(s: FilterState, ps: seq<Patch>, id: string)
    requires Inv(s) && Committable(s, ps) && id in Commit(s, ps).revisions
    ensures var t := Commit(s, ps);
            && (id in s.revisions ==> s.revisions[id] <= t.revisions[id])
            && (id in s.requiredIds ==> t.revisions[id] == 0 && LiveAt(t.predicates, id).Some?)
            && (LiveAt(t.predicates, id).Some? ==> LiveAt(t.predicates, id).value.revision == t.revisions[id])
  {
    hide Commit, Sound;
    CommitAt(s, ps, id);
    PatchForIsPresent(ps, id);
    var p := PatchFor(ps, id);
    if p.Some? {
      var i :| 0 <= i < |ps| && ps[i] == p.value;
    }
  }

  lemma PredicateAfterCommit(s: FilterState, ps: seq<Patch>, i: nat)
    requires Inv(s) && Committable(s, ps) && i < |Commit(s, ps).predicates|
    ensures var t := Commit(s, ps);
            var p := t.predicates[i];
            Sound(p) && p.id in t.revisions && t.revisions[p.id] == p.revision
  {
    hide Commit, Sound, IndexOf;
    var t := Commit(s, ps);
    var p := t.predicates[i];
    assert p in t.predicates;
    CommitMembers(s, ps, p);
    CommitAt(s, ps, p.id);
    if p !in s.predicates {
      var j :| 0 <= j < |ps| && ps[j].install == Some(p);
      assert ps[j].id in PatchIds(ps);
    }
    EntryAfterCommit(s, ps, p.id);
    IndexOfIsUnique(t.predicates, p.id, i);
  }

  lemma CommitEvolves(s: FilterState, ps: seq<Patch>)
    requires Inv(s) && Committable(s, ps)
    ensures Evolves(s, Commit(s, ps))
    ensures forall p <- Commit(s, ps).predicates :: p.mode.Required? <==> p.id in s.requiredIds
  {
    hide Commit, Sound, RequiredPart, LiveAt, DistinctPredicates;
    var t := Commit(s, ps);
    CommitAt(s, ps, "");
    CommitKeepsRequired(s, ps);
    forall id | id in s.revisions
      ensures id in t.revisions && s.revisions[id] <= t.revisions[id]
    {
      EntryAfterCommit(s, ps, id);
    }
  }

  lemma CommitKeepsInv(s: FilterState, ps: seq<Patch>)
    requires Inv(s) && Committable(s, ps)
    ensures Inv(Commit(s, ps))
  {
    hide Commit, Sound, RequiredPart, LiveAt;
    var t := Commit(s, ps);
    CommitAt(s, ps, "");
    CommitEvolves(s, ps);
    assert |t.revisions| == |t.revisions.Keys|;
    forall id | id in s.requiredIds
      ensures id in t.revisions && t.revisions[id] == 0 && LiveAt(t.predicates, id).Some?
    {
      EntryAfterCommit(s, ps, id);
    }
    forall i | 0 <= i < |t.predicates|
      ensures var p := t.predicates[i];
              && Sound(p) && p.id in t.revisions && t.revisions[p.id] == p.revision
              && (p.mode.Required? <==> p.id in t.requiredIds)
    {
      PredicateAfterCommit(s, ps, i);
      assert t.predicates[i] in t.predicates;
    }
  }

  /** An accepted delta keeps the invariant, changes no required predicate and forgets no revision. */
  lemma StepKeepsInv(s: FilterState, doc: Document, reading: Reading)
    requires Inv(s) && ApplyDelta(s, doc, reading).Some?
    ensures Inv(ApplyDelta(s, doc, reading).value)
    ensures Evolves(s, ApplyDelta(s, doc, reading).value)
  {
    hide Inv, Evolves, Committable, Commit, Parsed;
    AcceptedIsCommittable(s, doc, reading);
    CommitKeepsInv(s, Parsed(s.scan, doc, reading, s.revisions, UpdatesOf(doc).value).value);
    CommitEvolves(s, Parsed(s.scan, doc, reading, s.revisions, UpdatesOf(doc).value).value);
  }

  lemma SnapshotEstablishesInv(scan: Scan, doc: Document, reading: Reading)
    requires ApplySnapshot(scan, doc, reading).Some?
    ensures Inv(ApplySnapshot(scan, doc, reading).value)
    ensures forall p <- ApplySnapshot(scan, doc, reading).value.predicates :: p.revision == 0
  {
    hide Header, EntriesOf, Sound, TotalNodes, Inv, DistinctPredicates, InitialState;
    var raws := Header(doc.members, "snapshot", "predicates").value;
    EntriesAreSound(scan, doc, reading, raws);
    var ps := EntriesOf(scan, doc, reading, raws).value;
    AsManyEntries(scan, doc, reading, raws);
    InitialStateIsInv(scan, doc.context, ps);
  }

  lemma AsManyEntries(scan: Scan, doc: Document, reading: Reading, raws: seq<Json>)
    requires EntriesOf(scan, doc, reading, raws).Some?
    ensures |EntriesOf(scan, doc, reading, raws).value| == |raws|
  {
  }

  lemma InitialStateIsInv(scan: Scan, context: Context, ps: seq<Predicate>)
    requires DistinctPredicates(ps) && |ps| <= MAX_PREDICATES
    requires forall i :: 0 <= i < |ps| ==> Sound(ps[i]) && ps[i].revision == 0
    ensures Inv(InitialState(scan, context, ps)) && InitialState(scan, context, ps).predicates == ps
  {
    hide Sound, IndexOf, LiveAt;
    var s := InitialState(scan, context, ps);
    IdsAreNoMoreThanPredicates(ps);
    assert |s.revisions| == |s.revisions.Keys| && s.revisions.Keys == set p <- ps :: p.id;
    forall i | 0 <= i < |ps|
      ensures LiveAt(ps, ps[i].id) == Some(ps[i]) && ps[i].id in s.revisions
      ensures ps[i].mode.Required? <==> ps[i].id in s.requiredIds
    {
      EachIsLive(ps, i);
    }
    forall id | id in s.requiredIds ensures id in s.revisions && LiveAt(ps, id).Some? {
      var j :| 0 <= j < |ps| && ps[j].mode.Required? && ps[j].id == id;
      EachIsLive(ps, j);
    }
  }

  lemma EachIsLive(ps: seq<Predicate>, i: nat)
    requires DistinctPredicates(ps) && i < |ps|
    ensures LiveAt(ps, ps[i].id) == Some(ps[i])
    ensures ps[i].mode.Required? <==> ps[i].id in RequiredIds(ps)
    ensures ps[i].id in set p <- ps :: p.id
  {
    hide IndexOf;
    IndexOfIsUnique(ps, ps[i].id, i);
    assert ps[i] in ps;
    if ps[i].id in RequiredIds(ps) {
      var j :| 0 <= j < |ps| && ps[j].mode.Required? && ps[j].id == ps[i].id;
      assert j == i;
    }
  }

  lemma {:induction false} IdsAreNoMoreThanPredicates(ps: seq<Predicate>)
    ensures |set p <- ps :: p.id| <= |ps|
  {
    if ps != [] {
      var k := |ps| - 1;
      IdsAreNoMoreThanPredicates(ps[..k]);
      assert ps == ps[..k] + [ps[k]];
      assert (set p <- ps :: p.id) == (set p <- ps[..k] :: p.id) + {ps[k].id};
    }
  }

  lemma {:induction false} EntriesAreSound(scan: Scan, doc: Document, reading: Reading, raws: seq<Json>)
    requires EntriesOf(scan, doc, reading, raws).Some?
    requires TotalNodes(EntriesOf(scan, doc, reading, raws).value) <= MAX_NODES
    ensures forall p <- EntriesOf(scan, doc, reading, raws).value :: Sound(p) && p.revision == 0
  {
    hide ElaboratePredicate, Sound;
    if raws != [] {
      var k := |raws| - 1;
      var ps := EntriesOf(scan, doc, reading, raws).value;
      assert ps[..k] == EntriesOf(scan, doc, reading, raws[..k]).value;
      EntriesAreSound(scan, doc, reading, raws[..k]);
      ElaboratedPredicateIsSound(scan, doc.row, doc.context, reading, raws[k].members, false);
      assert ps == ps[..k] + [ps[k]];
    }
  }

  // ---- Runs, and reading the accepted documents again ------------------------------------------

  /** Re-reading documents that were accepted before: the bind check is skipped. */
  const REPLAY := Reading(true, (e: Expr) => false)

  /** Deltas arriving one after the other; a rejected one leaves the state as it was. */
  function Run(s: FilterState, docs: seq<Document>, reading: Reading): FilterState {
    if docs == [] then s
    else
      var t := Run(s, docs[..|docs| - 1], reading);
      ApplyDelta(t, docs[|docs| - 1], reading).GetOr(t)
  }

  /** The deltas of a run that were accepted. */
  function Accepted(s: FilterState, docs: seq<Document>, reading: Reading): seq<Document> {
    if docs == [] then []
    else
      var last := docs[|docs| - 1];
      var init := docs[..|docs| - 1];
      Accepted(s, init, reading)
      + if ApplyDelta(Run(s, init, reading), last, reading).Some? then [last] else []
  }

  /** Every delta must be accepted. */
  function ApplyAll(s: FilterState, docs: seq<Document>, reading: Reading): Option<FilterState> {
    if docs == [] then Some(s)
    else
      var t :- ApplyAll(s, docs[..|docs| - 1], reading);
      ApplyDelta(t, docs[|docs| - 1], reading)
  }

  lemma EvolvesTransitive(s: FilterState, t: FilterState, u: FilterState)
    requires Evolves(s, t) && Evolves(t, u)
    ensures Evolves(s, u)
  {
    hide RequiredPart;
    forall id | id in s.revisions
      ensures id in u.revisions && s.revisions[id] <= u.revisions[id]
    {
      assert id in t.revisions;
    }
  }

  /** After any deltas, accepted or not, the invariant holds and the required predicates are the first ones. */
  lemma {:induction false} RunKeepsInv(s: FilterState, docs: seq<Document>, reading: Reading)
    requires Inv(s)
    ensures Inv(Run(s, docs, reading)) && Evolves(s, Run(s, docs, reading))
  {
    hide Inv, ApplyDelta, RequiredPart;
    if docs != [] {
      var k := |docs| - 1;
      RunKeepsInv(s, docs[..k], reading);
      var t := Run(s, docs[..k], reading);
      if ApplyDelta(t, docs[k], reading).Some? {
        StepKeepsInv(t, docs[k], reading);
        EvolvesTransitive(s, t, ApplyDelta(t, docs[k], reading).value);
      }
    }
  }

  lemma ReplayedPatch(scan: Scan, doc: Document, reading: Reading, revisions: map<string, nat>, u: Update)
    requires PatchOf(scan, doc, reading, revisions, u).Some?
    ensures PatchOf(scan, doc, REPLAY, revisions, u) == PatchOf(scan, doc, reading, revisions, u)
  {
    hide Elaborate, HasKeys, ModeOf, SourceOf, RequiresSession;
  }

  lemma {:induction false} ReplayedPatches(scan: Scan, doc: Document, reading: Reading, revisions: map<string, nat>,
                                           us: seq<Update>)
    requires Parsed(scan, doc, reading, revisions, us).Some?
    ensures Parsed(scan, doc, REPLAY, revisions, us) == Parsed(scan, doc, reading, revisions, us)
  {
    hide PatchOf;
    if us != [] {
      ReplayedPatches(scan, doc, reading, revisions, us[..|us| - 1]);
      ReplayedPatch(scan, doc, reading, revisions, us[|us| - 1]);
    }
  }

  lemma ReplayedDelta(s: FilterState, doc: Document, reading: Reading)
    requires ApplyDelta(s, doc, reading).Some?
    ensures ApplyDelta(s, doc, REPLAY) == ApplyDelta(s, doc, reading)
  {
    hide UpdatesOf, Parsed, Commit;
    ReplayedPatches(s.scan, doc, reading, s.revisions, UpdatesOf(doc).value);
  }

  /** Replaying the accepted documents without binding rebuilds exactly the state of the run. */
  lemma {:induction false} ReplayRebuildsRun(s: FilterState, docs: seq<Document>, reading: Reading)
    ensures ApplyAll(s, Accepted(s, docs, reading), REPLAY) == Some(Run(s, docs, reading))
  {
    hide ApplyDelta;
    if docs != [] {
      var k := |docs| - 1;
      ReplayRebuildsRun(s, docs[..k], reading);
      var t := Run(s, docs[..k], reading);
      var before := Accepted(s, docs[..k], reading);
      if ApplyDelta(t, docs[k], reading).Some? {
        ReplayedDelta(t, docs[k], reading);
        assert (before + [docs[k]])[..|before|] == before;
      } else {
        assert before + [] == before;
      }
    }
  }

  lemma {:induction false} ReplayedEntries(scan: Scan, doc: Document, reading: Reading, raws: seq<Json>)
    requires EntriesOf(scan, doc, reading, raws).Some?
    ensures EntriesOf(scan, doc, REPLAY, raws) == EntriesOf(scan, doc, reading, raws)
  {
    hide Elaborate, HasKeys, ModeOf, SourceOf, RequiresSession;
    if raws != [] {
      ReplayedEntries(scan, doc, reading, raws[..|raws| - 1]);
    }
  }

  lemma ReplayedSnapshot(scan: Scan, doc: Document, reading: Reading)
    requires ApplySnapshot(scan, doc, reading).Some?
    ensures ApplySnapshot(scan, doc, REPLAY) == ApplySnapshot(scan, doc, reading)
  {
    hide EntriesOf, Header, TotalNodes;
    ReplayedEntries(scan, doc, reading, Header(doc.members, "snapshot", "predicates").value);
  }
}
