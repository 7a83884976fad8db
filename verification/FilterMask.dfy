/**
 Filtering a batch: the live predicates are folded into one mask with SQL's three-valued AND. The
 engine is a function giving each expression a truth value per row, or None when it raises.
 */
module FilterMask {
  import opened Common
  import opened FilterModel
  import opened FilterParser

  datatype Truth = True | False | Unknown

  function And(a: Truth, b: Truth): Truth {
    if a.False? || b.False? then False else if a.Unknown? || b.Unknown? then Unknown else True
  }

  type Engine = Expr -> Option<seq<Truth>>

  /** Every vector the engine returns has one truth value per row. */
  ghost predicate Sized(engine: Engine, rows: nat) {
    forall e :: engine(e).Some? ==> |engine(e).value| == rows
  }

  /** Unsupported runtime filters are skipped, and so are advisory predicates that raise. */
  predicate Contributes(engine: Engine, p: Predicate) {
    !p.expression.RuntimeFilter? && engine(p.expression).Some?
  }

  /** Kleene conjunction, over the predicates of a collection taken in no particular order. */
  ghost predicate IsConjunction(engine: Engine, rows: nat, ps: set<Predicate>, i: nat, t: Truth)
    requires Sized(engine, rows) && i < rows
  {
    && (t.True? <==> forall p <- ps :: Contributes(engine, p) ==> engine(p.expression).value[i].True?)
    && (t.False? <==> exists p <- ps :: Contributes(engine, p) && engine(p.expression).value[i].False?)
  }

  /**
   `FilterState.evaluate`, on what the engine answers: it raises exactly when the engine raises for a required
   predicate that is not a runtime filter. Otherwise a row is TRUE exactly when every predicate of either mode that
   is not a runtime filter, and that the engine answers, is TRUE there, and FALSE exactly when one of them is FALSE.
   */
  method Evaluate(engine: Engine, predicates: seq<Predicate>, rows: nat) returns (r: Option<seq<Truth>>)
    requires Sized(engine, rows)
    ensures r.None? <==> exists p <- predicates ::
              p.mode.Required? && !p.expression.RuntimeFilter? && engine(p.expression).None?
    ensures r.Some? ==> |r.value| == rows
    ensures r.Some? ==> forall i :: 0 <= i < rows ==>
              (r.value[i].True? <==> forall p <- predicates ::
                 !p.expression.RuntimeFilter? && engine(p.expression).Some? ==> engine(p.expression).value[i].True?)
    ensures r.Some? ==> forall i :: 0 <= i < rows ==>
              (r.value[i].False? <==> exists p <- predicates ::
                 !p.expression.RuntimeFilter? && engine(p.expression).Some? && engine(p.expression).value[i].False?)
    ensures r.Some? ==> IsMask(engine, rows, (set p <- predicates), r.value)
  {
    var mask := seq(rows, _ => True);
    for k := 0 to |predicates|
      invariant |mask| == rows
      invariant forall j :: 0 <= j < k ==> !RaisesOut(engine, predicates[j])
      invariant forall i :: 0 <= i < rows ==>
                  (mask[i].True? <==> forall j :: 0 <= j < k && Contributes(engine, predicates[j]) ==>
                                        engine(predicates[j].expression).value[i].True?)
      invariant forall i :: 0 <= i < rows ==>
                  (mask[i].False? <==> exists j :: 0 <= j < k && Contributes(engine, predicates[j])
                                                    && engine(predicates[j].expression).value[i].False?)
    {
      var p := predicates[k];
      if !p.expression.RuntimeFilter? {
        var current := engine(p.expression);
        if current.Some? {
          mask := seq(rows, i requires 0 <= i < rows => And(mask[i], current.value[i]));
        } else if p.mode.Required? {
          assert RaisesOut(engine, p) && p in predicates;
          return None;
        }
      }
    }
    forall p | p in predicates
      ensures !RaisesOut(engine, p)
    {
      var j :| 0 <= j < |predicates| && predicates[j] == p;
    }
    forall i | 0 <= i < rows
      ensures IsConjunction(engine, rows, (set p <- predicates), i, mask[i])
    {
      ByIndexOrByMember(engine, rows, predicates, i);
    }
    ConjunctionOfAnswers(engine, rows, predicates, mask);
    return Some(mask);
  }

  /** The conjunction, in terms of what the engine answers. */
  lemma ConjunctionOfAnswers(engine: Engine, rows: nat, ps: seq<Predicate>, mask: seq<Truth>)
    requires Sized(engine, rows) && |mask| == rows
    requires forall i :: 0 <= i < rows ==> IsConjunction(engine, rows, (set p <- ps), i, mask[i])
    ensures forall i :: 0 <= i < rows ==>
              (mask[i].True? <==> forall p <- ps ::
                 !p.expression.RuntimeFilter? && engine(p.expression).Some? ==> engine(p.expression).value[i].True?)
    ensures forall i :: 0 <= i < rows ==>
              (mask[i].False? <==> exists p <- ps ::
                 !p.expression.RuntimeFilter? && engine(p.expression).Some? && engine(p.expression).value[i].False?)
  {
    forall i | 0 <= i < rows
      ensures mask[i].True? <==> forall p <- ps ::
                !p.expression.RuntimeFilter? && engine(p.expression).Some? ==> engine(p.expression).value[i].True?
      ensures mask[i].False? <==> exists p <- ps ::
                !p.expression.RuntimeFilter? && engine(p.expression).Some? && engine(p.expression).value[i].False?
    {
      assert IsConjunction(engine, rows, (set p <- ps), i, mask[i]);
      assert forall p :: p in ps <==> p in set q <- ps;
    }
  }

  lemma ByIndexOrByMember(engine: Engine, rows: nat, ps: seq<Predicate>, i: nat)
    requires Sized(engine, rows) && i < rows
    ensures (forall j :: 0 <= j < |ps| && Contributes(engine, ps[j]) ==> engine(ps[j].expression).value[i].True?)
       <==> (forall p <- (set q <- ps) :: Contributes(engine, p) ==> engine(p.expression).value[i].True?)
    ensures (exists j :: 0 <= j < |ps| && Contributes(engine, ps[j]) && engine(ps[j].expression).value[i].False?)
       <==> (exists p <- (set q <- ps) :: Contributes(engine, p) && engine(p.expression).value[i].False?)
  {
    assert forall j :: 0 <= j < |ps| ==> ps[j] in set q <- ps;
  }

  predicate RaisesOut(engine: Engine, p: Predicate) {
    !p.expression.RuntimeFilter? && engine(p.expression).None? && p.mode.Required?
  }

  /** The mask a state gives a batch, when none of its required predicates raises. */
  ghost predicate IsMask(engine: Engine, rows: nat, ps: set<Predicate>, mask: seq<Truth>)
    requires Sized(engine, rows)
  {
    |mask| == rows && forall i :: 0 <= i < rows ==> IsConjunction(engine, rows, ps, i, mask[i])
  }

  /** The mask depends only on which predicates are live, not on their order or repetition. */
  lemma MaskIsDetermined(engine: Engine, rows: nat, ps: set<Predicate>, m: seq<Truth>, n: seq<Truth>)
    requires Sized(engine, rows) && IsMask(engine, rows, ps, m) && IsMask(engine, rows, ps, n)
    ensures m == n
  {
    forall i | 0 <= i < rows
      ensures m[i] == n[i]
    {
      assert IsConjunction(engine, rows, ps, i, m[i]) && IsConjunction(engine, rows, ps, i, n[i]);
    }
  }

  /** A kept row satisfies every required predicate: none of them was skipped. */
  lemma KeptRowsMeetRequired(engine: Engine, rows: nat, ps: set<Predicate>, mask: seq<Truth>, i: nat, p: Predicate)
    requires Sized(engine, rows) && IsMask(engine, rows, ps, mask) && i < rows && mask[i].True?
    requires p in ps && p.mode.Required? && Sound(p) && !RaisesOut(engine, p)
    ensures engine(p.expression).Some? && engine(p.expression).value[i].True?
  {
    assert IsConjunction(engine, rows, ps, i, mask[i]);
    assert Contributes(engine, p);
  }

  /** Dropping predicates never drops a row that was kept; an advisory one that raises changes nothing. */
  lemma FewerPredicatesKeepMore(engine: Engine, rows: nat, ps: set<Predicate>, mask: seq<Truth>, drop: Predicate,
                                fewer: seq<Truth>)
    requires Sized(engine, rows) && IsMask(engine, rows, ps, mask) && IsMask(engine, rows, ps - {drop}, fewer)
    ensures forall i :: 0 <= i < rows && mask[i].True? ==> fewer[i].True?
    ensures !Contributes(engine, drop) ==> fewer == mask
  {
    forall i | 0 <= i < rows
      ensures mask[i].True? ==> fewer[i].True?
      ensures !Contributes(engine, drop) ==> fewer[i] == mask[i]
    {
      assert IsConjunction(engine, rows, ps, i, mask[i]);
      assert IsConjunction(engine, rows, ps - {drop}, i, fewer[i]);
      if !Contributes(engine, drop) && mask[i].False? {
        var p :| p in ps && Contributes(engine, p) && engine(p.expression).value[i].False?;
        assert p in ps - {drop};
      }
    }
  }
}
