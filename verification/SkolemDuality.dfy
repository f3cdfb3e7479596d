/** Where skolemisation happens (crates/als-core/src/lower.rs): a universal under a negation is lowered as
    the existential it is, blocked lowering cannot see its polarity, and an existential mints one relation
    for every name whose bound has a static upper. */
module SkolemDuality {
  import opened Wrappers
  import opened Ir
  import opened Folder
  import opened Plain
  import opened Freshness
  import opened Surface
  import opened AbstractUpper
  import opened Lowering
  import opened LoweringFacts
  import opened LoweringExact

  // ------------------------------------------------------------------ polarity where nothing may be minted

  /** Expressions are lowered alike at any polarity, blocked or not. */
  lemma {:induction false} ExprAnyPol(k: Tables, st: LState, bs: Binders, p: Pol, q: Pol, e: SExpr)
    ensures LowerRel(k, st, bs, p, e) == LowerRel(k, st, bs, q, e)
    decreases e, 1
  {
    match e
    case SLeaf(_) =>
    case SName(_) =>
    case SBin(_, l, r) =>
      ExprAnyPol(k, st, bs, p, q, l);
      var a := LowerRel(k, st, bs, p, l);
      if a.Some? { ExprAnyPol(k, a.value.1, bs, p, q, r); }
    case SUn(_, g) => ExprAnyPol(k, st, bs, p, q, g);
    case SIte(_, _, _) => ChoiceAnyPol(k, st, bs, p, q, e);
    case SCompr(decls, body) =>
      DeclsAnyPol(k, st, bs, Blocked(p), Blocked(q), decls, false);
      var o := BindDecls(k, st, bs, Blocked(p), decls, false);
      if o.Some? { BlockedAnyPol(k, o.value.st, o.value.bs, Blocked(p), Blocked(q), body); }
  }

  lemma {:induction false} ChoiceAnyPol(k: Tables, st: LState, bs: Binders, p: Pol, q: Pol, e: SExpr)
    requires e.SIte?
    ensures LowerRel(k, st, bs, p, e) == LowerRel(k, st, bs, q, e)
    decreases e, 0
  {
    BlockedAnyPol(k, st, bs, Blocked(p), Blocked(q), e.cond);
    var c := LowerFormula(k, st, bs, Blocked(p), e.cond);
    if c.Some? {
      ExprAnyPol(k, c.value.1, bs, p, q, e.t);
      var a := LowerRel(k, c.value.1, bs, p, e.t);
      if a.Some? { ExprAnyPol(k, a.value.1, bs, p, q, e.els); }
    }
  }

  /** A blocked formula is lowered alike at either polarity. */
  lemma {:induction false} BlockedAnyPol(k: Tables, st: LState, bs: Binders, p: Pol, q: Pol, f: SFormula)
    requires p.blocked && q.blocked
    ensures LowerFormula(k, st, bs, p, f) == LowerFormula(k, st, bs, q, f)
    decreases f, 1
  {
    match f
    case FBlock(parts) =>
      PartsAnyPol(k, st, bs, BlockedIf(p, !p.positive && |parts| >= 2), BlockedIf(q, !q.positive && |parts| >= 2), parts);
    case FCompare(_, _, l, r) =>
      ExprAnyPol(k, st, bs, p, q, l);
      var a := LowerRel(k, st, bs, p, l);
      if a.Some? { ExprAnyPol(k, a.value.1, bs, p, q, r); }
    case FNot(g) => BlockedAnyPol(k, st, bs, Flipped(p), Flipped(q), g);
    case FAnd(_, _) => BinaryAnyPol(k, st, bs, p, q, f);
    case FOr(_, _) => BinaryAnyPol(k, st, bs, p, q, f);
    case FImplies(_, _) => BinaryAnyPol(k, st, bs, p, q, f);
    case FIff(_, _) => BinaryAnyPol(k, st, bs, p, q, f);
    case FIte(_, _, _) => IteAnyPol(k, st, bs, p, q, f);
    case FTest(_, e) => ExprAnyPol(k, st, bs, p, q, e);
    case FQuant(_, _, _) => QuantAnyPol(k, st, bs, p, q, f);
    case FLet(lets, body) =>
      LetsAnyPol(k, st, bs, p, q, lets);
      var b := PushLets(k, st, bs, p, lets);
      if b.Some? { BlockedAnyPol(k, b.value.1, b.value.0, p, q, body); }
    case FName(x, target) =>
      var n := Find(bs, x);
      if n.Some? && bs[n.value].1.BFormula? && bs[n.value].1.depth <= |bs| {
        BlockedAnyPol(k, st, bs[..bs[n.value].1.depth], p, q, target);
      }
  }

  lemma {:induction false} BinaryAnyPol(k: Tables, st: LState, bs: Binders, p: Pol, q: Pol, f: SFormula)
    requires Binary(f) && p.blocked && q.blocked
    ensures LowerFormula(k, st, bs, p, f) == LowerFormula(k, st, bs, q, f)
    decreases f, 0
  {
    hide LowerFormula;
    BinaryUnfolds(k, st, bs, p, f);
    BinaryUnfolds(k, st, bs, q, f);
    BlockedAnyPol(k, st, bs, LeftPol(f, p), LeftPol(f, q), f.left);
    var a := LowerFormula(k, st, bs, LeftPol(f, p), f.left);
    if a.Some? { BlockedAnyPol(k, a.value.1, bs, RightPol(f, p), RightPol(f, q), f.right); }
  }

  lemma {:induction false} IteAnyPol(k: Tables, st: LState, bs: Binders, p: Pol, q: Pol, f: SFormula)
    requires f.FIte? && p.blocked && q.blocked
    ensures LowerFormula(k, st, bs, p, f) == LowerFormula(k, st, bs, q, f)
    decreases f, 0
  {
    BlockedAnyPol(k, st, bs, Blocked(p), Blocked(q), f.cond);
    var c := LowerFormula(k, st, bs, Blocked(p), f.cond);
    if c.Some? {
      BlockedAnyPol(k, c.value.1, bs, Blocked(p), Blocked(q), f.t);
      var a := LowerFormula(k, c.value.1, bs, Blocked(p), f.t);
      if a.Some? { BlockedAnyPol(k, a.value.1, bs, Blocked(p), Blocked(q), f.els); }
    }
  }

  lemma {:induction false} PartsAnyPol(k: Tables, st: LState, bs: Binders, p: Pol, q: Pol, parts: seq<SFormula>)
    requires p.blocked && q.blocked
    ensures LowerParts(k, st, bs, p, parts) == LowerParts(k, st, bs, q, parts)
    decreases parts, 1
  {
    if parts != [] {
      BlockedAnyPol(k, st, bs, p, q, parts[0]);
      var a := LowerFormula(k, st, bs, p, parts[0]);
      if a.Some? { PartsAnyPol(k, a.value.1, bs, p, q, parts[1..]); }
    }
  }

  lemma {:induction false} LetsAnyPol(k: Tables, st: LState, bs: Binders, p: Pol, q: Pol, lets: seq<SLet>)
    ensures PushLets(k, st, bs, p, lets) == PushLets(k, st, bs, q, lets)
    decreases lets, 1
  {
    if lets != [] {
      match lets[0]
      case LetRel(x, e) =>
        ExprAnyPol(k, st, bs, p, q, e);
        var r := LowerRel(k, st, bs, p, e);
        if r.Some? { LetsAnyPol(k, r.value.1, bs + [(x, BExpr(r.value.0))], p, q, lets[1..]); }
      case LetFormula(x, g) => LetsAnyPol(k, st, bs + [(x, BFormula(g, |bs|))], p, q, lets[1..]);
    }
  }

  /** Binding declarations depends on whether skolemisation is allowed, not on the polarity. */
  lemma {:induction false} DeclsAnyPol(k: Tables, st: LState, bs: Binders, p: Pol, q: Pol, decls: seq<SDecl>, allowed: bool)
    ensures BindDecls(k, st, bs, p, decls, allowed) == BindDecls(k, st, bs, q, decls, allowed)
    decreases decls, 1
  {
    if decls != [] {
      DeclAnyPol(k, st, bs, p, q, decls[0], allowed);
      var a := BindDecl(k, st, bs, p, decls[0], allowed);
      if a.Some? { DeclsAnyPol(k, a.value.st, a.value.bs, p, q, decls[1..], allowed); }
    }
  }

  lemma {:induction false} DeclAnyPol(k: Tables, st: LState, bs: Binders, p: Pol, q: Pol, d: SDecl, allowed: bool)
    ensures BindDecl(k, st, bs, p, d, allowed) == BindDecl(k, st, bs, q, d, allowed)
    decreases d, 2
  {
    if d.bound.Marked? {
      MarkedAnyPol(k, st, bs, p, q, d, d.names);
    } else {
      ExprAnyPol(k, st, bs, p, q, d.bound.e);
    }
  }

  lemma {:induction false} MarkedAnyPol(k: Tables, st: LState, bs: Binders, p: Pol, q: Pol, d: SDecl, names: seq<string>)
    requires d.bound.Marked?
    ensures MintMarked(k, st, bs, p, d, names) == MintMarked(k, st, bs, q, d, names)
    decreases d, 1, |names|
  {
    if names != [] {
      ExprAnyPol(k, st, bs, p, q, d.bound.e);
      var r := LowerRel(k, st, bs, p, d.bound.e);
      if r.Some? {
        var (bound, st0) := r.value;
        var upper := UpperOf(k, st0, bound, st0.nextVar);
        if upper.Some? {
          var st1 := MintSkolems(st0, 1, upper.value);
          ExprAnyPol(k, st1, bs, p, q, d.bound.e);
          var c := LowerRel(k, st1, bs, p, d.bound.e);
          if c.Some? { MarkedAnyPol(k, c.value.1, bs + [(names[0], BExpr(Relation(st0.nextRel)))], p, q, d, names[1..]); }
        }
      }
    }
  }

  lemma {:induction false} QuantAnyPol(k: Tables, st: LState, bs: Binders, p: Pol, q: Pol, f: SFormula)
    requires f.FQuant? && p.blocked && q.blocked
    ensures LowerFormula(k, st, bs, p, f) == LowerFormula(k, st, bs, q, f)
    decreases f, 0
  {
    hide LowerFormula, MakeComprehension, WrapQuants, Guarded;
    DeclsAnyPol(k, st, bs, p, q, f.decls, false);
    DeclsAnyPol(k, st, bs, Blocked(p), Blocked(q), f.decls, false);
    if f.quant == QuOne || f.quant == QuLone {
      CountUnfolds(k, st, bs, p, f);
      CountUnfolds(k, st, bs, q, f);
      var o := BindDecls(k, st, bs, Blocked(p), f.decls, false);
      if o.Some? { BlockedAnyPol(k, o.value.st, o.value.bs, Blocked(p), Blocked(q), f.body); }
    } else {
      QuantUnfolds(k, st, bs, p, f);
      QuantUnfolds(k, st, bs, q, f);
      var o := BindDecls(k, st, bs, p, f.decls, false);
      if o.Some? { BlockedAnyPol(k, o.value.st, o.value.bs, BodyPol(f.quant, p), BodyPol(f.quant, q), f.body); }
    }
  }

  // ------------------------------------------------------------------ universals under a negation

  /** Both lower or both are refused; then they leave the same tables and hold alike. */
  ghost predicate SameLowering(k: Tables, st: LState, bs: Binders, pol: Pol, f: SFormula, g: SFormula) {
    var x, y := LowerFormula(k, st, bs, pol, f), LowerFormula(k, st, bs, pol, g);
    && (x.Some? <==> y.Some?)
    && (x.Some? ==> x.value.1 == y.value.1 && forall i, env :: Holds(i, env, x.value.0) == Holds(i, env, y.value.0))
  }

  lemma NotUnfolds(k: Tables, st: LState, bs: Binders, pol: Pol, g: SFormula)
    ensures var r := LowerFormula(k, st, bs, Flipped(pol), g);
      LowerFormula(k, st, bs, pol, FNot(g)) == if r.None? then None else Some((Not(r.value.0), r.value.1))
  {
  }

  /** `not all` is lowered as `some .. not`. */
  lemma NotAllIsSome(k: Tables, st: LState, bs: Binders, pol: Pol, decls: seq<SDecl>, g: SFormula)
    ensures SameLowering(k, st, bs, pol, FNot(FQuant(QuAll, decls, g)), FQuant(QuSome, decls, FNot(g)))
  {
    hide LowerFormula, Holds, WrapQuants, Guarded;
    var f, h := FQuant(QuAll, decls, g), FQuant(QuSome, decls, FNot(g));
    NotUnfolds(k, st, bs, pol, f);
    QuantUnfolds(k, st, bs, Flipped(pol), f);
    QuantUnfolds(k, st, bs, pol, h);
    var allowed := EffectiveExistential(QuSome, pol) && !pol.blocked;
    DeclsAnyPol(k, st, bs, Flipped(pol), pol, decls, allowed);
    var o := BindDecls(k, st, bs, pol, decls, allowed);
    if o.Some? {
      NotUnfolds(k, o.value.st, o.value.bs, BodyPol(QuSome, pol), g);
      var r := LowerFormula(k, o.value.st, o.value.bs, BodyPol(QuAll, Flipped(pol)), g);
      if r.Some? {
        forall i, env
          ensures Holds(i, env, LowerFormula(k, st, bs, pol, FNot(f)).value.0) == Holds(i, env, LowerFormula(k, st, bs, pol, h).value.0)
        {
          NotAllHolds(i, env, o.value, r.value.0);
        }
      }
    }
  }

  lemma NotAllHolds(i: Inst, env: Env, o: Bound, g: Formula)
    ensures Holds(i, env, Not(WrapQuants(QAll, o.fo, Guarded(QuAll, o, g)))) == Holds(i, env, WrapQuants(QSome, o.fo, Guarded(QuSome, o, Not(g))))
  {
    WrappedMeaning(i, env, QuAll, o, g);
    WrappedMeaning(i, env, QuSome, o, Not(g));
    forall ts ensures Witness(i, env, o, g, false, ts) <==> Witness(i, env, o, Not(g), true, ts) {}
    if Meets(i, env, o, g, false) { var ts :| Witness(i, env, o, g, false, ts); }
    if Meets(i, env, o, Not(g), true) { var ts :| Witness(i, env, o, Not(g), true, ts); }
  }

  /** `not no` is lowered as `some`. */
  lemma NotNoIsSome(k: Tables, st: LState, bs: Binders, pol: Pol, decls: seq<SDecl>, g: SFormula)
    ensures SameLowering(k, st, bs, pol, FNot(FQuant(QuNo, decls, g)), FQuant(QuSome, decls, g))
  {
    hide LowerFormula, Holds, WrapQuants, Guarded;
    var f, h := FQuant(QuNo, decls, g), FQuant(QuSome, decls, g);
    NotUnfolds(k, st, bs, pol, f);
    QuantUnfolds(k, st, bs, Flipped(pol), f);
    QuantUnfolds(k, st, bs, pol, h);
    var allowed := EffectiveExistential(QuSome, pol) && !pol.blocked;
    DeclsAnyPol(k, st, bs, Flipped(pol), pol, decls, allowed);
    var o := BindDecls(k, st, bs, pol, decls, allowed);
    if o.Some? {
      var r := LowerFormula(k, o.value.st, o.value.bs, BodyPol(QuSome, pol), g);
      if r.Some? {
        forall i, env
          ensures Holds(i, env, LowerFormula(k, st, bs, pol, FNot(f)).value.0) == Holds(i, env, LowerFormula(k, st, bs, pol, h).value.0)
        {
          NotNoHolds(i, env, o.value, r.value.0);
        }
      }
    }
  }

  lemma NotNoHolds(i: Inst, env: Env, o: Bound, g: Formula)
    ensures Holds(i, env, Not(WrapQuants(QAll, o.fo, Guarded(QuNo, o, Not(g))))) == Holds(i, env, WrapQuants(QSome, o.fo, Guarded(QuSome, o, g)))
  {
    WrappedMeaning(i, env, QuNo, o, g);
    WrappedMeaning(i, env, QuSome, o, g);
  }

  // ------------------------------------------------------------------ what an existential mints

  /** Consecutive relations under one upper bound. */
  function Entries(first: RelId, n: nat, upper: Upper): seq<(RelId, Upper)> {
    seq(n, j requires 0 <= j < n => (first + j, upper))
  }

  /** An unblocked existential gives every name of its first group the next relation, under the upper
      bound of the group's lowered bound. */
  lemma SomeMints(k: Tables, st: LState, bs: Binders, decls: seq<SDecl>, body: SFormula, bound: RelExpr, st1: LState, upper: Upper)
    requires var f := FQuant(QuSome, decls, body);
      Ready(k, st, bs) && LeavesFormula(k, f) && LowerFormula(k, st, bs, Pol(true, false), f).Some?
    requires decls != [] && decls[0].bound.Each?
    requires LowerRel(k, st, bs, Pol(true, false), decls[0].bound.e) == Some((bound, st1))
    requires UpperOf(k, st1, bound, st1.nextVar) == Some(upper)
    ensures var st' := LowerFormula(k, st, bs, Pol(true, false), FQuant(QuSome, decls, body)).value.1;
      st.skolems + Entries(st.nextRel, |decls[0].names|, upper) <= st'.skolems
  {
    hide LowerFormula, LowerRel, BindDecl, WrapQuants, Guarded, ValidBinders;
    var pol, f := Pol(true, false), FQuant(QuSome, decls, body);
    QuantUnfolds(k, st, bs, pol, f);
    var o := BindDecls(k, st, bs, pol, decls, true).value;
    var a := BindDecl(k, st, bs, pol, decls[0], true).value;
    GroupMints(k, st, bs, decls[0], bound, st1, upper);
    DeclFacts(k, st, bs, pol, decls[0], true);
    assert LeavesDecls(k, decls[1..]);
    DeclsFacts(k, a.st, a.bs, pol, decls[1..], true);
    FormulaFacts(k, o.st, o.bs, BodyPol(QuSome, pol), body);
  }

  lemma GroupMints(k: Tables, st: LState, bs: Binders, d: SDecl, bound: RelExpr, st1: LState, upper: Upper)
    requires Ready(k, st, bs) && LeavesExpr(k, d.bound.e) && d.bound.Each?
    requires LowerRel(k, st, bs, Pol(true, false), d.bound.e) == Some((bound, st1))
    requires UpperOf(k, st1, bound, st1.nextVar) == Some(upper)
    ensures var a := BindDecl(k, st, bs, Pol(true, false), d, true);
      a.Some? && a.value.st.skolems == st.skolems + Entries(st.nextRel, |d.names|, upper)
  {
    ExprFacts(k, st, bs, Pol(true, false), d.bound.e);
    SameMark(k, st, st1);
  }

  /** Tables that agree on the relation mark hold the same skolems. */
  lemma SameMark(k: Tables, st: LState, st': LState)
    requires ValidState(k, st) && ValidState(k, st') && Grows(st, st') && st'.nextRel == st.nextRel
    ensures st'.skolems == st.skolems
  {
  }

  /** A universal that is not under a negation mints nothing and takes no higher-order group. */
  lemma UniversalMintsNone(k: Tables, st: LState, bs: Binders, pol: Pol, f: SFormula)
    requires f.FQuant? && (if f.quant == QuSome then !pol.positive else (f.quant == QuAll || f.quant == QuNo) && pol.positive)
    requires Ready(k, st, bs) && LeavesFormula(k, f) && LowerFormula(k, st, bs, pol, f).Some?
    ensures LowerFormula(k, st, bs, pol, f).value.1.nextRel == st.nextRel && AllEach(f.decls)
  {
    hide LowerFormula, WrapQuants, Guarded;
    QuantUnfolds(k, st, bs, pol, f);
    var o := BindDecls(k, st, bs, pol, f.decls, false).value;
    DeclsFacts(k, st, bs, pol, f.decls, false);
    DeniedEach(k, st, bs, pol, f.decls);
    FormulaFacts(k, o.st, o.bs, BodyPol(f.quant, pol), f.body);
  }

  // ------------------------------------------------------------------ first-order formulas are never refused

  /** The names in scope, with the formula behind a formula-valued `let`. */
  type Scope = seq<(string, Option<SFormula>)>

  function ScopeOf(bs: Binders): (sc: Scope)
    ensures |sc| == |bs|
  {
    seq(|bs|, j requires 0 <= j < |bs| => (bs[j].0, if bs[j].1.BFormula? then Some(bs[j].1.target) else None))
  }

  function Relations(names: seq<string>): Scope {
    seq(|names|, j requires 0 <= j < |names| => (names[j], None))
  }

  /** Every name is in scope and of the right sort, and every declaration ranges over tuples. */
  predicate FirstOrder(sc: Scope, f: SFormula)
    decreases f, 1
  {
    match f
    case FBlock(parts) => forall j | 0 <= j < |parts| :: FirstOrder(sc, parts[j])
    case FCompare(_, _, l, r) => FirstOrderExpr(sc, l) && FirstOrderExpr(sc, r)
    case FNot(g) => FirstOrder(sc, g)
    case FAnd(l, r) => FirstOrder(sc, l) && FirstOrder(sc, r)
    case FOr(l, r) => FirstOrder(sc, l) && FirstOrder(sc, r)
    case FImplies(l, r) => FirstOrder(sc, l) && FirstOrder(sc, r)
    case FIff(l, r) => FirstOrder(sc, l) && FirstOrder(sc, r)
    case FIte(g, t, e) => FirstOrder(sc, g) && FirstOrder(sc, t) && FirstOrder(sc, e)
    case FTest(_, e) => FirstOrderExpr(sc, e)
    case FQuant(_, decls, body) => FirstOrderDecls(sc, decls) && FirstOrder(sc + Relations(AllNames(decls)), body)
    case FLet(lets, body) => FirstOrderLets(sc, lets) && FirstOrder(UnderLets(sc, lets), body)
    case FName(x, target) =>
      var n := Find(sc, x);
      n.Some? && sc[n.value].1 == Some(target) && FirstOrder(sc[..n.value], target)
  }

  predicate FirstOrderExpr(sc: Scope, e: SExpr)
    decreases e, 1
  {
    match e
    case SLeaf(_) => true
    case SName(x) => var n := Find(sc, x); n.Some? && sc[n.value].1.None?
    case SBin(_, l, r) => FirstOrderExpr(sc, l) && FirstOrderExpr(sc, r)
    case SUn(_, g) => FirstOrderExpr(sc, g)
    case SIte(c, t, g) => FirstOrder(sc, c) && FirstOrderExpr(sc, t) && FirstOrderExpr(sc, g)
    case SCompr(decls, body) => FirstOrderDecls(sc, decls) && FirstOrder(sc + Relations(AllNames(decls)), body)
  }

  predicate FirstOrderDecls(sc: Scope, ds: seq<SDecl>)
    decreases ds, 0
  {
    ds == []
    || (ds[0].bound.Each? && FirstOrderExpr(sc, ds[0].bound.e) && FirstOrderDecls(sc + Relations(ds[0].names), ds[1..]))
  }

  predicate FirstOrderLets(sc: Scope, lets: seq<SLet>)
    decreases lets, 0
  {
    lets == []
    || ((if lets[0].LetRel? then FirstOrderExpr(sc, lets[0].value) else true)
        && FirstOrderLets(sc + [LetEntry(lets[0])], lets[1..]))
  }

  function LetEntry(l: SLet): (string, Option<SFormula>) {
    match l
    case LetRel(x, _) => (x, None)
    case LetFormula(x, g) => (x, Some(g))
  }

  function UnderLets(sc: Scope, lets: seq<SLet>): Scope
    decreases lets
  {
    if lets == [] then sc else UnderLets(sc + [LetEntry(lets[0])], lets[1..])
  }

  /** The stack binds these names, formulas at the height they were bound at. */
  predicate Stacked(bs: Binders, sc: Scope) {
    ScopeOf(bs) == sc && forall j | 0 <= j < |bs| && bs[j].1.BFormula? :: bs[j].1.depth == j
  }

  lemma {:induction false} FindStacked(bs: Binders, sc: Scope, x: string)
    requires ScopeOf(bs) == sc
    ensures Find(bs, x) == Find(sc, x)
    decreases |bs|
  {
    if bs != [] {
      var m := |bs| - 1;
      assert ScopeOf(bs[..m]) == sc[..m];
      FindStacked(bs[..m], sc[..m], x);
    }
  }

  lemma StackedPush(bs: Binders, sc: Scope, more: Binders, names: Scope)
    requires Stacked(bs, sc) && |more| == |names|
    requires forall j | 0 <= j < |more| :: names[j] == (more[j].0, if more[j].1.BFormula? then Some(more[j].1.target) else None)
    requires forall j | 0 <= j < |more| && more[j].1.BFormula? :: more[j].1.depth == |bs| + j
    ensures Stacked(bs + more, sc + names)
  {
  }

  /** A first-order formula whose names are in scope is lowered at every polarity. */
  lemma {:induction false} FirstOrderLowers(k: Tables, st: LState, bs: Binders, pol: Pol, sc: Scope, f: SFormula)
    requires Stacked(bs, sc) && FirstOrder(sc, f)
    ensures LowerFormula(k, st, bs, pol, f).Some?
    decreases f, 1
  {
    match f
    case FBlock(parts) => PartsLower(k, st, bs, BlockedIf(pol, !pol.positive && |parts| >= 2), sc, parts);
    case FCompare(_, _, l, r) =>
      ExprLowers(k, st, bs, pol, sc, l);
      ExprLowers(k, LowerRel(k, st, bs, pol, l).value.1, bs, pol, sc, r);
    case FNot(g) => FirstOrderLowers(k, st, bs, Flipped(pol), sc, g);
    case FAnd(_, _) => BinaryLowers(k, st, bs, pol, sc, f);
    case FOr(_, _) => BinaryLowers(k, st, bs, pol, sc, f);
    case FImplies(_, _) => BinaryLowers(k, st, bs, pol, sc, f);
    case FIff(_, _) => BinaryLowers(k, st, bs, pol, sc, f);
    case FIte(_, _, _) => IteLowers(k, st, bs, pol, sc, f);
    case FTest(_, e) => ExprLowers(k, st, bs, pol, sc, e);
    case FQuant(_, _, _) => QuantLowers(k, st, bs, pol, sc, f);
    case FLet(lets, body) =>
      LetsLower(k, st, bs, pol, sc, lets);
      var p := PushLets(k, st, bs, pol, lets).value;
      FirstOrderLowers(k, p.1, p.0, pol, UnderLets(sc, lets), body);
    case FName(x, target) =>
      FindStacked(bs, sc, x);
      var n := Find(sc, x).value;
      assert Stacked(bs[..n], sc[..n]) by { assert ScopeOf(bs[..n]) == sc[..n]; }
      assert ScopeOf(bs)[n] == sc[n];
      FirstOrderLowers(k, st, bs[..n], pol, sc[..n], target);
  }

  lemma {:induction false} PartsLower(k: Tables, st: LState, bs: Binders, pol: Pol, sc: Scope, parts: seq<SFormula>)
    requires Stacked(bs, sc) && forall j | 0 <= j < |parts| :: FirstOrder(sc, parts[j])
    ensures LowerParts(k, st, bs, pol, parts).Some?
    decreases parts, 1
  {
    if parts != [] {
      FirstOrderLowers(k, st, bs, pol, sc, parts[0]);
      PartsLower(k, LowerFormula(k, st, bs, pol, parts[0]).value.1, bs, pol, sc, parts[1..]);
    }
  }

  lemma {:induction false} BinaryLowers(k: Tables, st: LState, bs: Binders, pol: Pol, sc: Scope, f: SFormula)
    requires Binary(f) && Stacked(bs, sc) && FirstOrder(sc, f)
    ensures LowerFormula(k, st, bs, pol, f).Some?
    decreases f, 0
  {
    hide LowerFormula, Stacked;
    BinaryUnfolds(k, st, bs, pol, f);
    FirstOrderLowers(k, st, bs, LeftPol(f, pol), sc, f.left);
    FirstOrderLowers(k, LowerFormula(k, st, bs, LeftPol(f, pol), f.left).value.1, bs, RightPol(f, pol), sc, f.right);
  }

  lemma {:induction false} IteLowers(k: Tables, st: LState, bs: Binders, pol: Pol, sc: Scope, f: SFormula)
    requires f.FIte? && Stacked(bs, sc) && FirstOrder(sc, f)
    ensures LowerFormula(k, st, bs, pol, f).Some?
    decreases f, 0
  {
    hide Stacked;
    FirstOrderLowers(k, st, bs, Blocked(pol), sc, f.cond);
    var c := LowerFormula(k, st, bs, Blocked(pol), f.cond).value;
    FirstOrderLowers(k, c.1, bs, Blocked(pol), sc, f.t);
    FirstOrderLowers(k, LowerFormula(k, c.1, bs, Blocked(pol), f.t).value.1, bs, Blocked(pol), sc, f.els);
  }

  lemma {:induction false} QuantLowers(k: Tables, st: LState, bs: Binders, pol: Pol, sc: Scope, f: SFormula)
    requires f.FQuant? && Stacked(bs, sc) && FirstOrder(sc, f)
    ensures LowerFormula(k, st, bs, pol, f).Some?
    decreases f, 0
  {
    hide LowerFormula, Stacked, WrapQuants, Guarded, MakeComprehension;
    var inner := sc + Relations(AllNames(f.decls));
    if f.quant == QuOne || f.quant == QuLone {
      CountUnfolds(k, st, bs, pol, f);
      DeclsLower(k, st, bs, Blocked(pol), sc, f.decls, false);
      var o := BindDecls(k, st, bs, Blocked(pol), f.decls, false).value;
      FirstOrderLowers(k, o.st, o.bs, Blocked(pol), inner, f.body);
    } else {
      QuantUnfolds(k, st, bs, pol, f);
      var allowed := EffectiveExistential(f.quant, pol) && !pol.blocked;
      DeclsLower(k, st, bs, pol, sc, f.decls, allowed);
      var o := BindDecls(k, st, bs, pol, f.decls, allowed).value;
      FirstOrderLowers(k, o.st, o.bs, BodyPol(f.quant, pol), inner, f.body);
    }
  }

  lemma {:induction false} LetsLower(k: Tables, st: LState, bs: Binders, pol: Pol, sc: Scope, lets: seq<SLet>)
    requires Stacked(bs, sc) && FirstOrderLets(sc, lets)
    ensures PushLets(k, st, bs, pol, lets).Some? && Stacked(PushLets(k, st, bs, pol, lets).value.0, UnderLets(sc, lets))
    decreases lets, 1
  {
    if lets != [] {
      match lets[0]
      case LetRel(x, e) =>
        ExprLowers(k, st, bs, pol, sc, e);
        var r := LowerRel(k, st, bs, pol, e).value;
        StackedPush(bs, sc, [(x, BExpr(r.0))], [LetEntry(lets[0])]);
        LetsLower(k, r.1, bs + [(x, BExpr(r.0))], pol, sc + [LetEntry(lets[0])], lets[1..]);
      case LetFormula(x, g) =>
        StackedPush(bs, sc, [(x, BFormula(g, |bs|))], [LetEntry(lets[0])]);
        LetsLower(k, st, bs + [(x, BFormula(g, |bs|))], pol, sc + [LetEntry(lets[0])], lets[1..]);
    }
  }

  lemma {:induction false} ExprLowers(k: Tables, st: LState, bs: Binders, pol: Pol, sc: Scope, e: SExpr)
    requires Stacked(bs, sc) && FirstOrderExpr(sc, e)
    ensures LowerRel(k, st, bs, pol, e).Some?
    decreases e, 1
  {
    match e
    case SLeaf(_) =>
    case SName(x) =>
      FindStacked(bs, sc, x);
      assert ScopeOf(bs)[Find(sc, x).value] == sc[Find(sc, x).value];
    case SBin(_, l, r) =>
      ExprLowers(k, st, bs, pol, sc, l);
      ExprLowers(k, LowerRel(k, st, bs, pol, l).value.1, bs, pol, sc, r);
    case SUn(_, g) => ExprLowers(k, st, bs, pol, sc, g);
    case SIte(c, t, g) =>
      FirstOrderLowers(k, st, bs, Blocked(pol), sc, c);
      var h := LowerFormula(k, st, bs, Blocked(pol), c).value;
      ExprLowers(k, h.1, bs, pol, sc, t);
      ExprLowers(k, LowerRel(k, h.1, bs, pol, t).value.1, bs, pol, sc, g);
    case SCompr(decls, body) =>
      DeclsLower(k, st, bs, Blocked(pol), sc, decls, false);
      var o := BindDecls(k, st, bs, Blocked(pol), decls, false).value;
      FirstOrderLowers(k, o.st, o.bs, Blocked(pol), sc + Relations(AllNames(decls)), body);
  }

  lemma {:induction false} DeclsLower(k: Tables, st: LState, bs: Binders, pol: Pol, sc: Scope, ds: seq<SDecl>, allowed: bool)
    requires Stacked(bs, sc) && FirstOrderDecls(sc, ds)
    ensures var o := BindDecls(k, st, bs, pol, ds, allowed);
      o.Some? && Stacked(o.value.bs, sc + Relations(AllNames(ds)))
    decreases ds, 1
  {
    if ds == [] {
      assert sc + Relations([]) == sc;
    } else {
      ExprLowers(k, st, bs, pol, sc, ds[0].bound.e);
      var a := BindDecl(k, st, bs, pol, ds[0], allowed).value;
      GroupStacked(bs, sc, ds[0].names, a.bs);
      DeclsLower(k, a.st, a.bs, pol, sc + Relations(ds[0].names), ds[1..], allowed);
      assert (sc + Relations(ds[0].names)) + Relations(AllNames(ds[1..])) == sc + Relations(AllNames(ds));
    }
  }

  lemma GroupStacked(bs: Binders, sc: Scope, names: seq<string>, bs': Binders)
    requires Stacked(bs, sc) && |bs'| == |bs| + |names| && bs <= bs'
    requires forall j | 0 <= j < |names| :: bs'[|bs| + j].0 == names[j] && !bs'[|bs| + j].1.BFormula?
    ensures Stacked(bs', sc + Relations(names))
  {
    assert bs' == bs + bs'[|bs|..];
    StackedPush(bs, sc, bs'[|bs|..], Relations(names));
  }

  /** A higher-order declaration of one name is taken exactly where skolemisation is allowed, its bound has
      a static upper and it is not `exactly`; otherwise it is refused. */
  lemma HigherOrderTaken(k: Tables, st: LState, bs: Binders, pol: Pol, sc: Scope, d: SDecl, allowed: bool)
    requires d.bound.Marked? && |d.names| == 1 && Stacked(bs, sc) && FirstOrderExpr(sc, d.bound.e)
    ensures LowerRel(k, st, bs, pol, d.bound.e).Some?
    ensures var (bound, st1) := LowerRel(k, st, bs, pol, d.bound.e).value;
      BindDecl(k, st, bs, pol, d, allowed).Some? <==> allowed && d.bound.mult != MExactly && UpperOf(k, st1, bound, st1.nextVar).Some?
  {
    ExprLowers(k, st, bs, pol, sc, d.bound.e);
    var (bound, st1) := LowerRel(k, st, bs, pol, d.bound.e).value;
    var upper := UpperOf(k, st1, bound, st1.nextVar);
    if upper.Some? {
      var minted := MintSkolems(st1, 1, upper.value);
      ExprLowers(k, minted, bs, pol, sc, d.bound.e);
      var c := LowerRel(k, minted, bs, pol, d.bound.e).value;
      assert MintMarked(k, c.1, bs + [(d.names[0], BExpr(Relation(st1.nextRel)))], pol, d, d.names[1..]).Some?;
    }
  }

  /** So the goal of a `check` mints the witnesses of its counterexample. */
  lemma CheckMints(k: Tables, st: LState, bs: Binders, decls: seq<SDecl>, body: SFormula, bound: RelExpr, st1: LState, upper: Upper)
    requires var f := FNot(FQuant(QuAll, decls, body));
      Ready(k, st, bs) && LeavesFormula(k, f) && LowerFormula(k, st, bs, Pol(true, false), f).Some?
    requires decls != [] && decls[0].bound.Each?
    requires LowerRel(k, st, bs, Pol(true, false), decls[0].bound.e) == Some((bound, st1))
    requires UpperOf(k, st1, bound, st1.nextVar) == Some(upper)
    ensures var st' := LowerFormula(k, st, bs, Pol(true, false), FNot(FQuant(QuAll, decls, body))).value.1;
      st.skolems + Entries(st.nextRel, |decls[0].names|, upper) <= st'.skolems
  {
    NotAllIsSome(k, st, bs, Pol(true, false), decls, body);
    SomeMints(k, st, bs, decls, FNot(body), bound, st1, upper);
  }
}
