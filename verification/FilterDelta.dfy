/**
 Snapshots and deltas: how the live predicates of a scan and their remembered revisions evolve.
 `ApplyDelta` states what a delta does; `ParseDelta` is the two-phase parser that does it.
 */
module FilterDelta {
  import opened Common
  import opened Arrow
  import opened FilterModel
  import opened FilterParser

  /** A filter batch whose Arrow container has been validated and whose JSON has been decoded. */
  datatype Document = Document(context: Context, row: OneRow, members: Members)

  /** Revisions are kept for every id ever seen, so a removed predicate leaves its revision behind. */
  datatype FilterState = FilterState(
    scan: Scan,
    context: Context,
    predicates: seq<Predicate>,
    revisions: map<string, nat>,
    requiredIds: set<string>)

  /** `body` is absent for a removal, and is the whole update object for an upsert. */
  datatype Update = Update(id: string, revision: nat, body: Option<Members>)

  datatype Patch = Patch(id: string, revision: nat, install: Option<Predicate>)

  function Header(m: Members, kind: string, member: string): Option<seq<Json>> {
    if !HasKeys(m, {"encoding", "semantics", "kind", member}, {}) then None
    else if m["encoding"] != JString("vgi.filters.v2") || m["semantics"] != JString("vgi.duckdb.standard.v1")
            || m["kind"] != JString(kind) || !m[member].JArray? then None
    else Some(m[member].items)
  }

  /** The syntax every update must have, whether or not it turns out to be applicable. */
  function SyntaxOf(raw: Json): Option<Update> {
    if !raw.JObject? || "operation" !in raw.members then None
    else
      var m := raw.members;
      if m["operation"] == JString("remove") then
        if !HasKeys(m, {"operation", "id", "revision"}, {}) || !ValidId(m["id"]) then None
        else
          var revision :- UInt(m["revision"]);
          Some(Update(m["id"].s, revision, None))
      else if m["operation"] == JString("upsert") then
        if !HasKeys(m, {"operation", "id", "revision", "mode", "source", "expression"}, {}) || !ValidId(m["id"])
        then None
        else
          var revision :- UInt(m["revision"]);
          var modeName :- Str(m["mode"]);
          var mode :- ModeOf(modeName);
          var sourceName :- Str(m["source"]);
          var source :- SourceOf(sourceName);
          if !m["expression"].JObject? || !mode.Advisory? then None
          else Some(Update(m["id"].s, revision, Some(m)))
      else None
  }

  function SyntaxOfAll(raws: seq<Json>): (r: Option<seq<Update>>)
    ensures r.Some? ==> |r.value| == |raws|
  {
    if raws == [] then Some([])
    else
      var init :- SyntaxOfAll(raws[..|raws| - 1]);
      var last :- SyntaxOf(raws[|raws| - 1]);
      Some(init + [last])
  }

  function UpdatesOf(doc: Document): Option<seq<Update>> {
    var raws :- Header(doc.members, "delta", "updates");
    SyntaxOfAll(raws)
  }

  predicate DistinctIds(us: seq<Update>) { forall i, j :: 0 <= i < j < |us| ==> us[i].id != us[j].id }

  predicate TargetsNone(us: seq<Update>, ids: set<string>) { forall i :: 0 <= i < |us| ==> us[i].id !in ids }

  predicate Stale(u: Update, revisions: map<string, nat>) {
    u.id in revisions && u.revision <= revisions[u.id]
  }

  /** What an update calls for: nothing when stale, one patch when it validates, None when it does not. */
  function PatchOf(scan: Scan, doc: Document, reading: Reading, revisions: map<string, nat>, u: Update)
    : (r: Option<seq<Patch>>)
    ensures r.Some? ==> if Stale(u, revisions) then r.value == []
                        else |r.value| == 1 && r.value[0].id == u.id && r.value[0].revision == u.revision
  {
    if Stale(u, revisions) then Some([])
    else if u.body.None? then Some([Patch(u.id, u.revision, None)])
    else
      var p :- ElaboratePredicate(scan, doc.row, doc.context, reading, u.body.value, true);
      Some([Patch(u.id, u.revision, Some(p))])
  }

  /** The applicable updates, validated; None when one of them does not validate. */
  function Parsed(scan: Scan, doc: Document, reading: Reading, revisions: map<string, nat>, us: seq<Update>)
    : Option<seq<Patch>>
  {
    if us == [] then Some([])
    else
      var init :- Parsed(scan, doc, reading, revisions, us[..|us| - 1]);
      var last :- PatchOf(scan, doc, reading, revisions, us[|us| - 1]);
      Some(init + last)
  }

  /** Expression nodes parsed for a list of patches. */
  function PatchNodes(ps: seq<Patch>): nat {
    if ps == [] then 0
    else
      var p := ps[|ps| - 1];
      PatchNodes(ps[..|ps| - 1]) + if p.install.Some? then Size(p.install.value.expression) else 0
  }

  function PatchIds(ps: seq<Patch>): set<string> { set p <- ps :: p.id }

  /** The position of an id in a dictionary of predicates. */
  function IndexOf(ps: seq<Predicate>, id: string): (r: Option<nat>)
    ensures r.Some? ==> r.value < |ps| && ps[r.value].id == id
    ensures r.None? ==> forall i :: 0 <= i < |ps| ==> ps[i].id != id
  {
    if ps == [] then None
    else if ps[|ps| - 1].id == id then Some(|ps| - 1)
    else IndexOf(ps[..|ps| - 1], id)
  }

  /** Install or remove one predicate: a replacement keeps its place, a new id goes last. */
  function Install(ps: seq<Predicate>, patch: Patch): seq<Predicate> {
    match (IndexOf(ps, patch.id), patch.install)
    case (None, None) => ps
    case (None, Some(p)) => ps + [p]
    case (Some(i), None) => ps[..i] + ps[i + 1..]
    case (Some(i), Some(p)) => ps[i := p]
  }

  function Commit(s: FilterState, ps: seq<Patch>): FilterState {
    if ps == [] then s
    else
      var t := Commit(s, ps[..|ps| - 1]);
      var p := ps[|ps| - 1];
      t.(predicates := Install(t.predicates, p), revisions := t.revisions[p.id := p.revision])
  }

  /** The effect of one delta, or None when the whole delta is rejected. */
  function ApplyDelta(s: FilterState, doc: Document, reading: Reading): Option<FilterState> {
    if doc.context != s.context then None
    else
      var us :- UpdatesOf(doc);
      if !DistinctIds(us) || !TargetsNone(us, s.requiredIds) then None
      else
        var ps :- Parsed(s.scan, doc, reading, s.revisions, us);
        if PatchNodes(ps) > MAX_NODES || |s.revisions.Keys + PatchIds(ps)| > MAX_PREDICATE_IDS then None
        else Some(Commit(s, ps))
  }

  lemma {:induction false} SyntaxPrefix(raws: seq<Json>, i: nat)
    requires SyntaxOfAll(raws).Some? && i < |raws|
    ensures SyntaxOf(raws[i]) == Some(SyntaxOfAll(raws).value[i])
  {
    hide SyntaxOf;
    if i < |raws| - 1 {
      SyntaxPrefix(raws[..|raws| - 1], i);
    }
  }

  /** The updates read so far pass every check that `parse_delta` makes while reading. */
  ghost predicate Readable(prior: FilterState, doc: Document, reading: Reading, us: seq<Update>) {
    && DistinctIds(us) && TargetsNone(us, prior.requiredIds)
    && Parsed(prior.scan, doc, reading, prior.revisions, us).Some?
    && PatchNodes(Parsed(prior.scan, doc, reading, prior.revisions, us).value) <= MAX_NODES
  }

  lemma ReadOneMore(prior: FilterState, doc: Document, reading: Reading, us: seq<Update>, u: Update)
    requires Readable(prior, doc, reading, us)
    ensures
      var ps := Parsed(prior.scan, doc, reading, prior.revisions, us).value;
      var more := PatchOf(prior.scan, doc, reading, prior.revisions, u);
      && Parsed(prior.scan, doc, reading, prior.revisions, us + [u]) ==
            (if more.Some? then Some(ps + more.value) else None)
      && (more.Some? ==> PatchNodes(ps + more.value) == PatchNodes(ps) + PatchNodes(more.value))
      && (Readable(prior, doc, reading, us + [u]) <==>
            && more.Some? && PatchNodes(ps + more.value) <= MAX_NODES
            && u.id !in (set v <- us :: v.id) && u.id !in prior.requiredIds)
  {
    hide PatchOf, PatchNodes, DistinctIds, TargetsNone, Parsed;
    var more := PatchOf(prior.scan, doc, reading, prior.revisions, u);
    ParsedOfOneMore(prior, doc, reading, us, u);
    OneMoreIsDistinct(us, u, prior.requiredIds);
    if more.Some? {
      NodesOfAppend(Parsed(prior.scan, doc, reading, prior.revisions, us).value, more.value);
    }
  }

  lemma ParsedOfOneMore(prior: FilterState, doc: Document, reading: Reading, us: seq<Update>, u: Update)
    requires Parsed(prior.scan, doc, reading, prior.revisions, us).Some?
    ensures var more := PatchOf(prior.scan, doc, reading, prior.revisions, u);
            Parsed(prior.scan, doc, reading, prior.revisions, us + [u]) ==
              if more.Some? then Some(Parsed(prior.scan, doc, reading, prior.revisions, us).value + more.value)
                  else None
  {
    hide PatchOf;
    assert (us + [u])[..|us|] == us;
  }

  lemma OneMoreIsDistinct(us: seq<Update>, u: Update, required: set<string>)
    ensures DistinctIds(us + [u]) <==> DistinctIds(us) && u.id !in set v <- us :: v.id
    ensures TargetsNone(us + [u], required) <==> TargetsNone(us, required) && u.id !in required
  {
    var us' := us + [u];
    assert forall i :: 0 <= i < |us| ==> us'[i] == us[i];
    assert us'[|us|] == u;
    if DistinctIds(us') {
      forall v | v in us ensures v.id != u.id {
        var j :| 0 <= j < |us| && us[j] == v;
        assert us'[j].id != us'[|us|].id;
      }
    }
  }

  lemma NodesOfAppend(ps: seq<Patch>, more: seq<Patch>)
    requires |more| <= 1
    ensures PatchNodes(ps + more) == PatchNodes(ps) + PatchNodes(more)
  {
    if more == [] {
      assert ps + more == ps;
    } else {
      assert (ps + more)[..|ps|] == ps && more[..0] == [];
    }
  }

  lemma {:induction false} ReadablePrefix(prior: FilterState, doc: Document, reading: Reading, us: seq<Update>, i: nat)
    requires Readable(prior, doc, reading, us) && i <= |us|
    ensures Readable(prior, doc, reading, us[..i])
  {
    hide PatchOf;
    if i == |us| {
      assert us[..i] == us;
    } else {
      var k := |us| - 1;
      var init := Parsed(prior.scan, doc, reading, prior.revisions, us[..k]).value;
      NodesOfAppend(init, PatchOf(prior.scan, doc, reading, prior.revisions, us[k]).value);
      ReadablePrefix(prior, doc, reading, us[..k], i);
      assert us[..k][..i] == us[..i];
    }
  }

  /** Validate one update if it is applicable, counting the nodes of its expression. */
  method ReadUpdate(parser: Parser, doc: Document, revisions: map<string, nat>, u: Update)
    returns (r: Option<seq<Patch>>)
    requires parser.row == doc.row && parser.context == doc.context && parser.nodes <= MAX_NODES
    modifies parser`nodes
    ensures var spec := PatchOf(parser.scan, doc, parser.reading, revisions, u);
            && (r.Some? <==> spec.Some? && old(parser.nodes) + PatchNodes(spec.value) <= MAX_NODES)
            && (r.Some? ==> r == spec && parser.nodes == old(parser.nodes) + PatchNodes(r.value))
  {
    hide ElaboratePredicate, Sound;
    if Stale(u, revisions) {
      return Some([]);
    }
    var p: Option<Predicate> := None;
    if u.body.Some? {
      p := parser.PredicateEntry(u.body.value, true);
      if p.None? {
        NodesOfOne(PatchOf(parser.scan, doc, parser.reading, revisions, u));
        return None;
      }
    }
    r := Some([Patch(u.id, u.revision, p)]);
    NodesOfOne(r);
  }

  lemma NodesOfOne(r: Option<seq<Patch>>)
    ensures r.Some? && |r.value| == 1 ==>
              var p := r.value[0].install;
              PatchNodes(r.value) == if p.Some? then Size(p.value.expression) else 0
  {
    if r.Some? && |r.value| == 1 {
      assert r.value[..0] == [];
    }
  }

  /** The first phase of `parse_delta`. */
  method ReadUpdates(prior: FilterState, doc: Document, reading: Reading, raws: seq<Json>)
    returns (r: Option<seq<Patch>>)
    ensures r.Some? <==> SyntaxOfAll(raws).Some? && Readable(prior, doc, reading, SyntaxOfAll(raws).value)
    ensures r.Some? ==> r == Parsed(prior.scan, doc, reading, prior.revisions, SyntaxOfAll(raws).value)
  {
    hide SyntaxOf, PatchOf, PatchNodes, Readable, DistinctIds, TargetsNone, Parsed;
    var parser := new Parser(prior.scan, doc.row, doc.context, reading);
    var parsed: seq<Patch> := [];
    var seen: set<string> := {};
    ghost var us: seq<Update> := [];
    ghost var all := SyntaxOfAll(raws);
    ReadNothing(prior, doc, reading);
    for i := 0 to |raws|
      invariant fresh(parser) && parser.scan == prior.scan && parser.row == doc.row
      invariant parser.context == doc.context && parser.reading == reading
      invariant |us| == i && SyntaxOfAll(raws[..i]) == Some(us)
      invariant all.Some? ==> us == all.value[..i]
      invariant seen == set u <- us :: u.id
      invariant Readable(prior, doc, reading, us)
      invariant Parsed(prior.scan, doc, reading, prior.revisions, us) == Some(parsed)
      invariant parser.nodes == PatchNodes(parsed) <= MAX_NODES
    {
      if all.Some? {
        SyntaxPrefix(raws, i);
        if Readable(prior, doc, reading, all.value) {
          ReadablePrefix(prior, doc, reading, all.value, i + 1);
        }
      }
      var syntax := SyntaxOf(raws[i]);
      if syntax.None? {
        return None;
      }
      var u := syntax.value;
      assert all.Some? ==> all.value[..i + 1] == us + [u];
      assert raws[..i + 1][..i] == raws[..i];
      ReadOneMore(prior, doc, reading, us, u);
      if u.id in seen || u.id in prior.requiredIds {
        return None;
      }
      seen := seen + {u.id};
      var more := ReadUpdate(parser, doc, prior.revisions, u);
      if more.None? {
        return None;
      }
      parsed := parsed + more.value;
      us := us + [u];
    }
    assert raws[..|raws|] == raws;
    return Some(parsed);
  }

  lemma ReadNothing(prior: FilterState, doc: Document, reading: Reading)
    ensures Readable(prior, doc, reading, []) && PatchNodes([]) == 0
    ensures Parsed(prior.scan, doc, reading, prior.revisions, []) == Some([])
  {
  }

  /** The second phase of `parse_delta`: nothing can fail any more. */
  method CommitPatches(prior: FilterState, parsed: seq<Patch>) returns (s: FilterState)
    ensures s == Commit(prior, parsed)
  {
    var current := prior.predicates;
    var revisions: map<string, nat> := prior.revisions;
    for k := 0 to |parsed|
      invariant Commit(prior, parsed[..k]) == prior.(predicates := current, revisions := revisions)
    {
      assert parsed[..k + 1][..k] == parsed[..k];
      revisions := revisions[parsed[k].id := parsed[k].revision];
      current := Install(current, parsed[k]);
    }
    assert parsed[..|parsed|] == parsed;
    return prior.(predicates := current, revisions := revisions);
  }

  /** `parse_delta`: every applicable update is parsed and validated before any of them is committed. */
  method ParseDelta(prior: FilterState, doc: Document, reading: Reading) returns (r: Option<FilterState>)
    ensures r == ApplyDelta(prior, doc, reading)
  {
    hide SyntaxOf, SyntaxOfAll, ElaboratePredicate, Parsed, PatchNodes, Header, Commit;
    if doc.context != prior.context {
      return None;
    }
    var raws := Header(doc.members, "delta", "updates");
    if raws.None? {
      return None;
    }
    var parsed := ReadUpdates(prior, doc, reading, raws.value);
    if parsed.None? {
      return None;
    }
    if |prior.revisions.Keys + PatchIds(parsed.value)| > MAX_PREDICATE_IDS {
      return None;
    }
    var s := CommitPatches(prior, parsed.value);
    return Some(s);
  }
}
