/** What the lowerer's formulas keep of the scoping the evaluator's memo relies on: no comprehension bound
    looks at its own or a later variable, and a lowered goal has no free variable
    (crates/als-core/src/lower.rs). */
module LoweredScope {
  import opened Ir
  import opened Plain
  import opened Freshness
  import opened FreeVariables
  import opened Surface
  import opened AbstractUpper
  import opened Lowering
  import opened LoweringFacts

  predicate ScopedF(g: Formula, vars: set<VarId>) {
    OrderedF(g) && FreeF(g) <= vars
  }

  predicate ScopedR(r: RelExpr, vars: set<VarId>) {
    OrderedR(r) && FreeR(r) <= vars
  }

  predicate ScopedAll(gs: seq<Formula>, vars: set<VarId>) {
    forall j | 0 <= j < |gs| :: ScopedF(gs[j], vars)
  }

  /** Every bound sees the enclosing variables and those declared before it. */
  predicate ScopedDecls(fo: seq<CompDecl>, vars: set<VarId>) {
    forall j | 0 <= j < |fo| :: ScopedDecl(fo, vars, j)
  }

  predicate ScopedDecl(fo: seq<CompDecl>, vars: set<VarId>, j: nat)
    requires j < |fo|
  {
    ScopedR(fo[j].bound, vars + DeclVars(fo[..j]))
  }

  predicate ScopedBinding(b: Binding, vars: set<VarId>) {
    match b
    case BVar(v) => v in vars
    case BExpr(e) => ScopedR(e, vars)
    case BFormula(_, _) => true
  }

  predicate ScopedBinders(bs: Binders, vars: set<VarId>) {
    forall j | 0 <= j < |bs| :: ScopedBinding(bs[j].1, vars)
  }

  predicate ScopedBound(o: Bound, vars: set<VarId>) {
    var inner := vars + DeclVars(o.fo);
    ScopedDecls(o.fo, vars) && ScopedAll(o.disj, inner) && ScopedAll(o.cons, inner) && ScopedBinders(o.bs, inner)
  }

  lemma BindersWiden(bs: Binders, vars: set<VarId>, more: set<VarId>)
    requires ScopedBinders(bs, vars) && vars <= more
    ensures ScopedBinders(bs, more)
  {
    forall j | 0 <= j < |bs| ensures ScopedBinding(bs[j].1, more) { assert ScopedBinding(bs[j].1, vars); }
  }

  // ------------------------------------------------------------------ expressions below a mark

  /** The free variables of an expression below a variable mark are below it. */
  lemma {:induction false} FreeBelowF(f: Formula, n: nat, m: nat)
    requires BelowFormula(f, n, m) && IntFreeFormula(f)
    ensures forall v | v in FreeF(f) :: v < n
    decreases f, 1
  {
    match f
    case Not(g) => FreeBelowF(g, n, m);
    case And(parts) => PartsBelow(f, parts, n, m);
    case Or(parts) => PartsBelow(f, parts, n, m);
    case Implies(a, k) => FreeBelowF(a, n, m); FreeBelowF(k, n, m);
    case Iff(l, r) => FreeBelowF(l, n, m); FreeBelowF(r, n, m);
    case RelCompare(_, l, r) => FreeBelowR(l, n, m); FreeBelowR(r, n, m);
    case MultTest(_, e) => FreeBelowR(e, n, m);
    case Quant(_, _, bound, body) => FreeBelowR(bound, n, m); FreeBelowF(body, n, m);
    case _ =>
  }

  lemma {:induction false} PartsBelow(owner: Formula, parts: seq<Formula>, n: nat, m: nat)
    requires forall k | 0 <= k < |parts| :: parts[k] < owner && BelowFormula(parts[k], n, m) && IntFreeFormula(parts[k])
    ensures forall v | v in FreeParts(parts) :: v < n
    decreases owner, 0, |parts|
  {
    if parts != [] {
      FreeBelowF(parts[|parts| - 1], n, m);
      PartsBelow(owner, parts[..|parts| - 1], n, m);
    }
  }

  lemma {:induction false} FreeBelowR(r: RelExpr, n: nat, m: nat)
    requires BelowRel(r, n, m) && IntFreeRel(r)
    ensures forall v | v in FreeR(r) :: v < n
    decreases r, 1
  {
    match r
    case RBin(_, l, rr) => FreeBelowR(l, n, m); FreeBelowR(rr, n, m);
    case RUn(_, e) => FreeBelowR(e, n, m);
    case RIte(cond, t, e) => FreeBelowF(cond, n, m); FreeBelowR(t, n, m); FreeBelowR(e, n, m);
    case Comprehension(decls, body) =>
      BoundsBelowMark(r, decls, n, m);
      FreeBelowF(body, n, m);
    case _ =>
  }

  lemma {:induction false} BoundsBelowMark(owner: RelExpr, decls: seq<CompDecl>, n: nat, m: nat)
    requires forall k | 0 <= k < |decls| :: decls[k].bound < owner && BelowRel(decls[k].bound, n, m) && IntFreeRel(decls[k].bound)
    ensures forall v | v in FreeBounds(decls) :: v < n
    decreases owner, 0, |decls|
  {
    if decls != [] {
      var d := decls[|decls| - 1];
      FreeBelowR(d.bound, n, m);
      BoundsBelowMark(owner, decls[..|decls| - 1], n, m);
      assert FreeBounds(decls) == FreeBounds(decls[..|decls| - 1]) + FreeR(d.bound);
    }
  }

  /** An expression with no variable at all, bound or free, is ordered. */
  lemma {:induction false} ClosedOrderedF(f: Formula, m: nat)
    requires BelowFormula(f, 0, m) && IntFreeFormula(f)
    ensures OrderedF(f)
    decreases f
  {
    hide LowerFormula;
    match f
    case Not(g) => ClosedOrderedF(g, m);
    case And(parts) => forall k | 0 <= k < |parts| { ClosedOrderedF(parts[k], m); }
    case Or(parts) => forall k | 0 <= k < |parts| { ClosedOrderedF(parts[k], m); }
    case Implies(a, k) => ClosedOrderedF(a, m); ClosedOrderedF(k, m);
    case Iff(l, r) => ClosedOrderedF(l, m); ClosedOrderedF(r, m);
    case RelCompare(_, l, r) => ClosedOrderedR(l, m); ClosedOrderedR(r, m);
    case MultTest(_, e) => ClosedOrderedR(e, m);
    case _ =>
  }

  lemma {:induction false} ClosedOrderedR(r: RelExpr, m: nat)
    requires BelowRel(r, 0, m) && IntFreeRel(r)
    ensures OrderedR(r)
    decreases r
  {
    hide LowerFormula;
    match r
    case RBin(_, l, rr) => ClosedOrderedR(l, m); ClosedOrderedR(rr, m);
    case RUn(_, e) => ClosedOrderedR(e, m);
    case RIte(cond, t, e) => ClosedOrderedF(cond, m); ClosedOrderedR(t, m); ClosedOrderedR(e, m);
    case Comprehension(_, body) => ClosedOrderedF(body, m);
    case _ =>
  }

  // ------------------------------------------------------------------ building blocks

  lemma ListScoped(gs: seq<Formula>, vars: set<VarId>)
    requires ScopedAll(gs, vars)
    ensures ScopedF(And(gs), vars) && ScopedF(Or(gs), vars) && ScopedF(Conjoin(gs), vars)
  {
    PartsScoped(gs, vars);
    if |gs| == 1 { assert ScopedF(gs[0], vars); }
  }

  lemma {:induction false} PartsScoped(gs: seq<Formula>, vars: set<VarId>)
    requires ScopedAll(gs, vars)
    ensures FreeParts(gs) <= vars
    decreases |gs|
  {
    if gs != [] {
      assert ScopedF(gs[|gs| - 1], vars);
      PartsScoped(gs[..|gs| - 1], vars);
    }
  }

  lemma PairScoped(a: Formula, b: Formula, vars: set<VarId>)
    requires ScopedF(a, vars) && ScopedF(b, vars)
    ensures ScopedF(And([a, b]), vars) && ScopedF(Or([a, b]), vars) && ScopedF(Implies(a, b), vars) && ScopedF(Iff(a, b), vars)
  {
    ListScoped([a, b], vars);
  }

  lemma TestScoped(test: MultTest, r: RelExpr, vars: set<VarId>)
    requires ScopedR(r, vars)
    ensures ScopedF(MultTest(test, r), vars)
  {
  }

  lemma BodyUnder(o: Bound, vars: set<VarId>)
    requires ScopedBound(o, vars)
    ensures ScopedBinders(o.bs, vars + DeclVars(o.fo))
  {
  }

  lemma NotScoped(g: Formula, vars: set<VarId>)
    requires ScopedF(g, vars)
    ensures ScopedF(Not(g), vars)
  {
  }

  lemma {:induction false} DeclVarsJoin(a: seq<CompDecl>, b: seq<CompDecl>)
    ensures DeclVars(a + b) == DeclVars(a) + DeclVars(b)
    decreases |b|
  {
    if b == [] {
      assert a + b == a;
    } else {
      assert (a + b)[..|a + b| - 1] == a + b[..|b| - 1];
      DeclVarsJoin(a, b[..|b| - 1]);
    }
  }

  lemma OneDeclVar(d: CompDecl)
    ensures DeclVars([d]) == {d.v}
  {
    assert [d][..0] == [];
  }

  lemma {:induction false} WrapScoped(kind: QuantKind, fo: seq<CompDecl>, inner: Formula, vars: set<VarId>)
    requires ScopedDecls(fo, vars) && ScopedF(inner, vars + DeclVars(fo))
    ensures ScopedF(WrapQuants(kind, fo, inner), vars)
    decreases |fo|
  {
    if fo == [] {
      assert vars + DeclVars(fo) == vars;
    } else {
      hide ScopedR, ScopedDecl, DeclVars;
      var d, rest := fo[0], fo[1..];
      assert fo == [d] + rest;
      OneDeclVar(d);
      DeclVarsJoin([d], rest);
      assert vars + DeclVars(fo) == (vars + {d.v}) + DeclVars(rest);
      forall j | 0 <= j < |rest|
        ensures ScopedDecl(rest, vars + {d.v}, j)
      {
        LaterDecl([d], rest, vars, j);
        assert ScopedDecl(fo, vars, j + 1);
      }
      WrapScoped(kind, rest, inner, vars + {d.v});
      FirstDecl(fo, vars);
      QuantClosed(kind, d, WrapQuants(kind, rest, inner), vars);
    }
  }

  lemma FirstDecl(fo: seq<CompDecl>, vars: set<VarId>)
    requires fo != [] && ScopedDecls(fo, vars)
    ensures ScopedR(fo[0].bound, vars)
  {
    assert ScopedDecl(fo, vars, 0);
    assert fo[..0] == [] && vars + DeclVars([]) == vars;
  }

  lemma QuantClosed(kind: QuantKind, d: CompDecl, body: Formula, vars: set<VarId>)
    requires ScopedR(d.bound, vars) && ScopedF(body, vars + {d.v})
    ensures ScopedF(Quant(kind, d.v, d.bound, body), vars)
  {
  }

  lemma GuardedScoped(q: SQuant, o: Bound, inner: Formula, vars: set<VarId>)
    requires ScopedAll(o.disj, vars) && ScopedAll(o.cons, vars) && ScopedF(inner, vars)
    ensures ScopedF(Guarded(q, o, inner), vars)
  {
    var guards := (if o.disj == [] then [] else [Conjoin(o.disj)]) + o.cons;
    ListScoped(o.disj, vars);
    assert ScopedAll(guards, vars);
    ListScoped(guards, vars);
    assert ScopedAll(guards + [inner], vars);
    ListScoped(guards + [inner], vars);
    PairScoped(Conjoin(guards), inner, vars);
  }

  /** The bounds of a comprehension were built before their variables, so none of them looks forward. */
  lemma BoundsOrdered(lo: nat, o: Bound)
    requires Ascending(o.fo, lo, o.st)
    ensures forall k, j | 0 <= k <= j < |o.fo| :: o.fo[j].v !in FreeR(o.fo[k].bound)
  {
    forall k, j | 0 <= k <= j < |o.fo|
      ensures o.fo[j].v !in FreeR(o.fo[k].bound)
    {
      FreeBelowR(o.fo[k].bound, o.fo[k].v, o.st.nextRel);
    }
  }

  lemma ComprehensionScoped(lo: nat, o: Bound, body: Formula, vars: set<VarId>)
    requires Ascending(o.fo, lo, o.st) && ScopedBound(o, vars) && ScopedF(body, vars + DeclVars(o.fo))
    ensures ScopedR(MakeComprehension(o, body), vars)
  {
    hide LowerFormula, OrderedF, FreeF;
    var inner := vars + DeclVars(o.fo);
    BoundsOrdered(lo, o);
    ListScoped(o.disj, inner);
    PairScoped(Conjoin(o.disj), body, inner);
    forall j | 0 <= j < |o.fo| ensures OrderedR(o.fo[j].bound) { assert ScopedDecl(o.fo, vars, j); }
    BoundsScoped(o.fo, |o.fo|, vars);
    assert o.fo[..|o.fo|] == o.fo;
  }

  lemma {:induction false} BoundsScoped(fo: seq<CompDecl>, n: nat, vars: set<VarId>)
    requires n <= |fo| && ScopedDecls(fo, vars)
    ensures FreeBounds(fo[..n]) <= vars + DeclVars(fo[..n])
    decreases n
  {
    if n > 0 {
      BoundsScoped(fo, n - 1, vars);
      assert fo[..n][..n - 1] == fo[..n - 1];
      assert ScopedDecl(fo, vars, n - 1);
    }
  }

  // ------------------------------------------------------------------ the lowerer's walk

  /** Lowering under a stack whose denotations see only these variables gives an ordered formula whose
      free variables are among them. */
  lemma {:induction false} FormulaScoped(k: Tables, st: LState, bs: Binders, pol: Pol, f: SFormula, vars: set<VarId>)
    requires Ready(k, st, bs) && LeavesFormula(k, f) && LowerFormula(k, st, bs, pol, f).Some? && ScopedBinders(bs, vars)
    ensures ScopedF(LowerFormula(k, st, bs, pol, f).value.0, vars)
    decreases f, 1
  {
    hide LowerRel, BindDecl;
    match f
    case FBlock(parts) => ListLowered(k, st, bs, BlockedIf(pol, !pol.positive && |parts| >= 2), parts, vars);
    case FCompare(_, _, _, _) => CompareScoped(k, st, bs, pol, f, vars);
    case FNot(g) => FormulaScoped(k, st, bs, Flipped(pol), g, vars);
    case FAnd(_, _) => BinaryScoped(k, st, bs, pol, f, vars);
    case FOr(_, _) => BinaryScoped(k, st, bs, pol, f, vars);
    case FImplies(_, _) => BinaryScoped(k, st, bs, pol, f, vars);
    case FIff(_, _) => BinaryScoped(k, st, bs, pol, f, vars);
    case FIte(_, _, _) => IteScoped(k, st, bs, pol, f, vars);
    case FTest(_, e) => ExprScoped(k, st, bs, pol, e, vars);
    case FQuant(_, _, _) => QuantScoped(k, st, bs, pol, f, vars);
    case FLet(_, _) => LetScoped(k, st, bs, pol, f, vars);
    case FName(x, target) =>
      var n := Find(bs, x).value;
      assert ValidBinding(k, bs[n].1, n, st);
      FormulaScoped(k, st, bs[..n], pol, target, vars);
  }

  lemma {:induction false} ListLowered(k: Tables, st: LState, bs: Binders, pol: Pol, parts: seq<SFormula>, vars: set<VarId>)
    requires Ready(k, st, bs) && LowerParts(k, st, bs, pol, parts).Some? && ScopedBinders(bs, vars)
    requires forall j | 0 <= j < |parts| :: LeavesFormula(k, parts[j])
    ensures var gs := LowerParts(k, st, bs, pol, parts).value.0; ScopedAll(gs, vars) && ScopedF(Conjoin(gs), vars)
    decreases parts, 1
  {
    hide LowerFormula, LeavesFormula;
    if parts != [] {
      FormulaScoped(k, st, bs, pol, parts[0], vars);
      FormulaFacts(k, st, bs, pol, parts[0]);
      ListLowered(k, LowerFormula(k, st, bs, pol, parts[0]).value.1, bs, pol, parts[1..], vars);
    }
    ListScoped(LowerParts(k, st, bs, pol, parts).value.0, vars);
  }

  lemma {:induction false} CompareScoped(k: Tables, st: LState, bs: Binders, pol: Pol, f: SFormula, vars: set<VarId>)
    requires f.FCompare?
    requires Ready(k, st, bs) && LeavesFormula(k, f) && LowerFormula(k, st, bs, pol, f).Some? && ScopedBinders(bs, vars)
    ensures ScopedF(LowerFormula(k, st, bs, pol, f).value.0, vars)
    decreases f, 0
  {
    ExprScoped(k, st, bs, pol, f.l, vars);
    ExprFacts(k, st, bs, pol, f.l);
    ExprScoped(k, LowerRel(k, st, bs, pol, f.l).value.1, bs, pol, f.r, vars);
  }

  lemma {:induction false} TwoScoped(k: Tables, st: LState, bs: Binders, p: Pol, q: Pol, l: SFormula, r: SFormula, owner: SFormula, vars: set<VarId>)
    requires l < owner && r < owner
    requires Ready(k, st, bs) && LeavesFormula(k, l) && LeavesFormula(k, r) && LowerFormula(k, st, bs, p, l).Some?
    requires LowerFormula(k, LowerFormula(k, st, bs, p, l).value.1, bs, q, r).Some? && ScopedBinders(bs, vars)
    ensures var a := LowerFormula(k, st, bs, p, l).value;
      var b := LowerFormula(k, a.1, bs, q, r).value.0;
      && ScopedF(a.0, vars) && ScopedF(b, vars)
      && ScopedF(And([a.0, b]), vars) && ScopedF(Or([a.0, b]), vars) && ScopedF(Implies(a.0, b), vars) && ScopedF(Iff(a.0, b), vars)
    decreases owner, 0, 0
  {
    hide LowerFormula, ScopedF, LeavesFormula, LowerRel;
    FormulaScoped(k, st, bs, p, l, vars);
    FormulaFacts(k, st, bs, p, l);
    var a := LowerFormula(k, st, bs, p, l).value;
    FormulaScoped(k, a.1, bs, q, r, vars);
    PairScoped(a.0, LowerFormula(k, a.1, bs, q, r).value.0, vars);
  }

  lemma {:induction false} BinaryScoped(k: Tables, st: LState, bs: Binders, pol: Pol, f: SFormula, vars: set<VarId>)
    requires Binary(f)
    requires Ready(k, st, bs) && LeavesFormula(k, f) && LowerFormula(k, st, bs, pol, f).Some? && ScopedBinders(bs, vars)
    ensures ScopedF(LowerFormula(k, st, bs, pol, f).value.0, vars)
    decreases f, 0, 1
  {
    hide LowerFormula, ScopedF, Ready;
    BinaryUnfolds(k, st, bs, pol, f);
    TwoScoped(k, st, bs, LeftPol(f, pol), RightPol(f, pol), f.left, f.right, f, vars);
  }

  lemma {:induction false} IteScoped(k: Tables, st: LState, bs: Binders, pol: Pol, f: SFormula, vars: set<VarId>)
    requires f.FIte?
    requires Ready(k, st, bs) && LeavesFormula(k, f) && LowerFormula(k, st, bs, pol, f).Some? && ScopedBinders(bs, vars)
    ensures ScopedF(LowerFormula(k, st, bs, pol, f).value.0, vars)
    decreases f, 0, 1
  {
    hide ScopedF, Ready, LowerRel, BindDecl;
    FormulaScoped(k, st, bs, Blocked(pol), f.cond, vars);
    FormulaFacts(k, st, bs, Blocked(pol), f.cond);
    var c := LowerFormula(k, st, bs, Blocked(pol), f.cond).value;
    TwoScoped(k, c.1, bs, Blocked(pol), Blocked(pol), f.t, f.els, f, vars);
    var a := LowerFormula(k, c.1, bs, Blocked(pol), f.t).value;
    var b := LowerFormula(k, a.1, bs, Blocked(pol), f.els).value;
    NotScoped(c.0, vars);
    PairScoped(c.0, a.0, vars);
    PairScoped(Not(c.0), b.0, vars);
    PairScoped(And([c.0, a.0]), And([Not(c.0), b.0]), vars);
  }

  lemma {:induction false} LetScoped(k: Tables, st: LState, bs: Binders, pol: Pol, f: SFormula, vars: set<VarId>)
    requires f.FLet?
    requires Ready(k, st, bs) && LeavesFormula(k, f) && LowerFormula(k, st, bs, pol, f).Some? && ScopedBinders(bs, vars)
    ensures ScopedF(LowerFormula(k, st, bs, pol, f).value.0, vars)
    decreases f, 0
  {
    hide LowerRel, BindDecl;
    LetsScoped(k, st, bs, pol, f.lets, vars);
    LetsFacts(k, st, bs, pol, f.lets);
    var p := PushLets(k, st, bs, pol, f.lets).value;
    FormulaScoped(k, p.1, p.0, pol, f.body, vars);
  }

  lemma {:induction false} LetsScoped(k: Tables, st: LState, bs: Binders, pol: Pol, lets: seq<SLet>, vars: set<VarId>)
    requires Ready(k, st, bs) && LeavesLets(k, lets) && PushLets(k, st, bs, pol, lets).Some? && ScopedBinders(bs, vars)
    ensures ScopedBinders(PushLets(k, st, bs, pol, lets).value.0, vars)
    decreases lets, 1
  {
    hide LowerFormula, LowerRel;
    if lets != [] {
      assert LeavesLets(k, lets[1..]);
      match lets[0]
      case LetRel(x, e) =>
        ExprScoped(k, st, bs, pol, e, vars);
        ExprFacts(k, st, bs, pol, e);
        var r := LowerRel(k, st, bs, pol, e).value;
        LetsScoped(k, r.1, bs + [(x, BExpr(r.0))], pol, lets[1..], vars);
      case LetFormula(x, g) =>
        LetsScoped(k, st, bs + [(x, BFormula(g, |bs|))], pol, lets[1..], vars);
    }
  }

  lemma {:induction false} QuantScoped(k: Tables, st: LState, bs: Binders, pol: Pol, f: SFormula, vars: set<VarId>)
    requires f.FQuant?
    requires Ready(k, st, bs) && LeavesFormula(k, f) && LowerFormula(k, st, bs, pol, f).Some? && ScopedBinders(bs, vars)
    ensures ScopedF(LowerFormula(k, st, bs, pol, f).value.0, vars)
    decreases f, 0, 1
  {
    hide LowerFormula, BindDecl;
    if f.quant == QuOne || f.quant == QuLone {
      CountScoped(k, st, bs, pol, f, vars);
    } else {
      hide LowerFormula, WrapQuants, Guarded, ScopedF, ValidBinders, ScopedBinders;
      LoweringFacts.QuantUnfolds(k, st, bs, pol, f);
      var allowed := EffectiveExistential(f.quant, pol) && !pol.blocked;
      var o := BindDecls(k, st, bs, pol, f.decls, allowed).value;
      DeclsScoped(k, st, bs, pol, f.decls, allowed, vars);
      DeclsFacts(k, st, bs, pol, f.decls, allowed);
      FormulaScoped(k, o.st, o.bs, BodyPol(f.quant, pol), f.body, vars + DeclVars(o.fo));
      NestScoped(f.quant, o, LowerFormula(k, o.st, o.bs, BodyPol(f.quant, pol), f.body).value.0, vars);
    }
  }

  lemma {:induction false} CountScoped(k: Tables, st: LState, bs: Binders, pol: Pol, f: SFormula, vars: set<VarId>)
    requires f.FQuant? && (f.quant == QuOne || f.quant == QuLone)
    requires Ready(k, st, bs) && LeavesFormula(k, f) && LowerFormula(k, st, bs, pol, f).Some? && ScopedBinders(bs, vars)
    ensures ScopedF(LowerFormula(k, st, bs, pol, f).value.0, vars)
    decreases f, 0, 0
  {
    hide LowerFormula, MakeComprehension, ValidBinders, ScopedBinders, ScopedF, ScopedR, ScopedBound, Ascending, LowerRel, BindDecl;
    CountUnfolds(k, st, bs, pol, f);
    var o := BindDecls(k, st, bs, Blocked(pol), f.decls, false).value;
    DeclsScoped(k, st, bs, Blocked(pol), f.decls, false, vars);
    DeclsFacts(k, st, bs, Blocked(pol), f.decls, false);
    BodyUnder(o, vars);
    FormulaScoped(k, o.st, o.bs, Blocked(pol), f.body, vars + DeclVars(o.fo));
    var g := LowerFormula(k, o.st, o.bs, Blocked(pol), f.body).value.0;
    ComprehensionScoped(st.nextVar, o, g, vars);
    TestScoped(if f.quant == QuOne then TOne else TLone, MakeComprehension(o, g), vars);
  }

  lemma NestScoped(q: SQuant, o: Bound, g: Formula, vars: set<VarId>)
    requires ScopedBound(o, vars) && ScopedF(g, vars + DeclVars(o.fo))
    ensures ScopedF(WrapQuants(if q == QuSome then QSome else QAll, o.fo, Guarded(q, o, if q == QuNo then Not(g) else g)), vars)
  {
    var inner := vars + DeclVars(o.fo);
    NotScoped(g, inner);
    GuardedScoped(q, o, if q == QuNo then Not(g) else g, inner);
    WrapScoped(if q == QuSome then QSome else QAll, o.fo, Guarded(q, o, if q == QuNo then Not(g) else g), vars);
  }

  lemma {:induction false} ExprScoped(k: Tables, st: LState, bs: Binders, pol: Pol, e: SExpr, vars: set<VarId>)
    requires Ready(k, st, bs) && LeavesExpr(k, e) && LowerRel(k, st, bs, pol, e).Some? && ScopedBinders(bs, vars)
    ensures ScopedR(LowerRel(k, st, bs, pol, e).value.0, vars)
    decreases e, 1
  {
    hide LowerFormula, LeavesFormula, OrderedF, BindDecl;
    match e
    case SLeaf(r) =>
      ClosedOrderedR(r, k.nextRel);
      FreeBelowR(r, 0, k.nextRel);
    case SName(x) =>
      var n := Find(bs, x).value;
      assert ScopedBinding(bs[n].1, vars);
    case SBin(_, l, r) =>
      ExprScoped(k, st, bs, pol, l, vars);
      ExprFacts(k, st, bs, pol, l);
      ExprScoped(k, LowerRel(k, st, bs, pol, l).value.1, bs, pol, r, vars);
    case SUn(_, g) => ExprScoped(k, st, bs, pol, g, vars);
    case SIte(_, _, _) => ChoiceScoped(k, st, bs, pol, e, vars);
    case SCompr(_, _) => CollectScoped(k, st, bs, pol, e, vars);
  }

  lemma {:induction false} ChoiceScoped(k: Tables, st: LState, bs: Binders, pol: Pol, e: SExpr, vars: set<VarId>)
    requires e.SIte?
    requires Ready(k, st, bs) && LeavesExpr(k, e) && LowerRel(k, st, bs, pol, e).Some? && ScopedBinders(bs, vars)
    ensures ScopedR(LowerRel(k, st, bs, pol, e).value.0, vars)
    decreases e, 0
  {
    hide Ready, LowerFormula, LeavesFormula, BindDecl;
    FormulaScoped(k, st, bs, Blocked(pol), e.cond, vars);
    FormulaFacts(k, st, bs, Blocked(pol), e.cond);
    var st1 := LowerFormula(k, st, bs, Blocked(pol), e.cond).value.1;
    ExprScoped(k, st1, bs, pol, e.t, vars);
    ExprFacts(k, st1, bs, pol, e.t);
    ExprScoped(k, LowerRel(k, st1, bs, pol, e.t).value.1, bs, pol, e.els, vars);
  }

  lemma {:induction false} CollectScoped(k: Tables, st: LState, bs: Binders, pol: Pol, e: SExpr, vars: set<VarId>)
    requires e.SCompr?
    requires Ready(k, st, bs) && LeavesExpr(k, e) && LowerRel(k, st, bs, pol, e).Some? && ScopedBinders(bs, vars)
    ensures ScopedR(LowerRel(k, st, bs, pol, e).value.0, vars)
    decreases e, 0
  {
    hide ScopedR, MakeComprehension, LowerFormula, LeavesFormula, OrderedF, FreeF, BindDecl;
    var o := BindDecls(k, st, bs, Blocked(pol), e.decls, false).value;
    DeclsScoped(k, st, bs, Blocked(pol), e.decls, false, vars);
    DeclsFacts(k, st, bs, Blocked(pol), e.decls, false);
    FormulaScoped(k, o.st, o.bs, Blocked(pol), e.body, vars + DeclVars(o.fo));
    ComprehensionScoped(st.nextVar, o, LowerFormula(k, o.st, o.bs, Blocked(pol), e.body).value.0, vars);
  }

  // ------------------------------------------------------------------ declarations

  lemma {:induction false} DeclsScoped(k: Tables, st: LState, bs: Binders, pol: Pol, decls: seq<SDecl>, allowed: bool, vars: set<VarId>)
    requires Ready(k, st, bs) && LeavesDecls(k, decls) && BindDecls(k, st, bs, pol, decls, allowed).Some? && ScopedBinders(bs, vars)
    ensures ScopedBound(BindDecls(k, st, bs, pol, decls, allowed).value, vars)
    decreases decls, 1
  {
    hide LowerFormula, LowerRel, LeavesFormula, BindDecl;
    if decls == [] {
      BindersWiden(bs, vars, vars + DeclVars([]));
    } else {
      DeclScoped(k, st, bs, pol, decls[0], allowed, vars);
      DeclFacts(k, st, bs, pol, decls[0], allowed);
      var a := BindDecl(k, st, bs, pol, decls[0], allowed).value;
      assert LeavesDecls(k, decls[1..]);
      DeclsScoped(k, a.st, a.bs, pol, decls[1..], allowed, vars + DeclVars(a.fo));
      BoundJoin(a, BindDecls(k, a.st, a.bs, pol, decls[1..], allowed).value, vars);
    }
  }

  lemma BoundJoin(a: Bound, b: Bound, vars: set<VarId>)
    requires ScopedBound(a, vars) && ScopedBound(b, vars + DeclVars(a.fo))
    ensures ScopedBound(Bound(a.fo + b.fo, a.disj + b.disj, a.cons + b.cons, b.bs, b.st), vars)
  {
    var fo := a.fo + b.fo;
    DeclVarsJoin(a.fo, b.fo);
    assert vars + DeclVars(fo) == (vars + DeclVars(a.fo)) + DeclVars(b.fo);
    AllWiden(a.disj, vars + DeclVars(a.fo), vars + DeclVars(fo));
    AllWiden(a.cons, vars + DeclVars(a.fo), vars + DeclVars(fo));
    DeclsJoin(a.fo, b.fo, vars);
  }

  lemma DeclsJoin(a: seq<CompDecl>, b: seq<CompDecl>, vars: set<VarId>)
    requires ScopedDecls(a, vars) && ScopedDecls(b, vars + DeclVars(a))
    ensures ScopedDecls(a + b, vars)
  {
    hide ScopedDecl, DeclVars;
    forall j | 0 <= j < |a + b|
      ensures ScopedDecl(a + b, vars, j)
    {
      if j < |a| { EarlierDecl(a, b, vars, j); } else { LaterDecl(a, b, vars, j - |a|); }
    }
  }

  lemma EarlierDecl(a: seq<CompDecl>, b: seq<CompDecl>, vars: set<VarId>, j: nat)
    requires j < |a|
    ensures ScopedDecl(a + b, vars, j) == ScopedDecl(a, vars, j)
  {
    assert (a + b)[..j] == a[..j];
  }

  lemma LaterDecl(a: seq<CompDecl>, b: seq<CompDecl>, vars: set<VarId>, j: nat)
    requires j < |b|
    ensures ScopedDecl(a + b, vars, |a| + j) == ScopedDecl(b, vars + DeclVars(a), j)
  {
    hide ScopedR;
    assert (a + b)[..|a| + j] == a + b[..j];
    DeclVarsJoin(a, b[..j]);
    assert vars + DeclVars((a + b)[..|a| + j]) == (vars + DeclVars(a)) + DeclVars(b[..j]);
  }

  lemma AllWiden(gs: seq<Formula>, vars: set<VarId>, more: set<VarId>)
    requires ScopedAll(gs, vars) && vars <= more
    ensures ScopedAll(gs, more)
  {
    forall j | 0 <= j < |gs| ensures ScopedF(gs[j], more) { assert ScopedF(gs[j], vars); }
  }

  lemma {:induction false} DeclScoped(k: Tables, st: LState, bs: Binders, pol: Pol, d: SDecl, allowed: bool, vars: set<VarId>)
    requires Ready(k, st, bs) && LeavesExpr(k, d.bound.e) && BindDecl(k, st, bs, pol, d, allowed).Some? && ScopedBinders(bs, vars)
    ensures ScopedBound(BindDecl(k, st, bs, pol, d, allowed).value, vars)
    decreases d, 2
  {
    hide LowerFormula, LowerRel, LeavesFormula;
    if d.bound.Marked? {
      MarkedScoped(k, st, bs, pol, d, d.names, vars);
      var m := MintMarked(k, st, bs, pol, d, d.names).value;
      var group := Group(m.bs, |d.names|);
      forall j | 0 <= j < |group|
        ensures ScopedR(group[j], vars)
      {
        if |d.names| <= |m.bs| { assert ScopedBinding(m.bs[|m.bs| - |d.names| + j].1, vars); }
      }
      DisjointScoped(d.disj, group, vars);
      assert vars + DeclVars([]) == vars;
    } else {
      ExprScoped(k, st, bs, pol, d.bound.e, vars);
      var (bound, st1) := LowerRel(k, st, bs, pol, d.bound.e).value;
      var upper := UpperOf(k, st1, bound, st1.nextVar);
      if allowed && upper.Some? {
        MintedScoped(bs, st1, bound, d, upper.value, vars);
      } else {
        AllocScoped(bs, st1, bound, d, vars);
      }
    }
  }

  lemma MintedScoped(bs: Binders, st: LState, bound: RelExpr, d: SDecl, upper: Upper, vars: set<VarId>)
    requires ScopedBinders(bs, vars) && ScopedR(bound, vars)
    ensures var group := RelRange(st.nextRel, |d.names|);
      ScopedBound(Bound([], [], SkolemCons(group, bound) + GroupDisjoint(d.disj, group), PushExprs(bs, d.names, group), MintSkolems(st, |d.names|, upper)), vars)
  {
    var group := RelRange(st.nextRel, |d.names|);
    SkolemConsScoped(group, bound, vars);
    DisjointScoped(d.disj, group, vars);
    assert vars + DeclVars([]) == vars;
  }

  lemma AllocScoped(bs: Binders, st: LState, bound: RelExpr, d: SDecl, vars: set<VarId>)
    requires ScopedBinders(bs, vars) && ScopedR(bound, vars)
    ensures var n := |d.names|;
      ScopedBound(Bound(seq(n, j requires 0 <= j < n => CompDecl(st.nextVar + j, bound)), GroupDisjoint(d.disj, VarRange(st.nextVar, n)), [],
                        PushVars(bs, d.names, st.nextVar), AllocVars(st, n, bound)), vars)
  {
    var n := |d.names|;
    var fo := seq(n, j requires 0 <= j < n => CompDecl(st.nextVar + j, bound));
    var inner := vars + DeclVars(fo);
    forall j | 0 <= j < n
      ensures fo[j].v in inner && fo[j].v == st.nextVar + j
    {
      InFreeBounds(fo, j);
    }
    var group := VarRange(st.nextVar, n);
    forall j | 0 <= j < n ensures ScopedR(group[j], inner) { assert group[j] == Var(fo[j].v); }
    DisjointScoped(d.disj, group, inner);
    BindersWiden(bs, vars, inner);
    var bs' := PushVars(bs, d.names, st.nextVar);
    forall j | 0 <= j < |bs'|
      ensures ScopedBinding(bs'[j].1, inner)
    {
      if j < |bs| { assert ScopedBinding(bs[j].1, inner); } else { assert bs'[j].1 == BVar(fo[j - |bs|].v); }
    }
  }

  lemma {:induction false} SkolemConsScoped(group: seq<RelExpr>, bound: RelExpr, vars: set<VarId>)
    requires ScopedR(bound, vars) && forall j | 0 <= j < |group| :: ScopedR(group[j], vars)
    ensures ScopedAll(SkolemCons(group, bound), vars)
    decreases |group|
  {
    if group != [] { SkolemConsScoped(group[1..], bound, vars); }
  }

  lemma DisjointScoped(disj: bool, group: seq<RelExpr>, vars: set<VarId>)
    requires forall j | 0 <= j < |group| :: ScopedR(group[j], vars)
    ensures ScopedAll(GroupDisjoint(disj, group), vars)
  {
    PairDisjointScoped(group, vars);
  }

  lemma {:induction false} PairDisjointScoped(group: seq<RelExpr>, vars: set<VarId>)
    requires forall j | 0 <= j < |group| :: ScopedR(group[j], vars)
    ensures ScopedAll(PairDisjoint(group), vars)
    decreases |group|
  {
    if group != [] {
      PairDisjointScoped(group[1..], vars);
      var pairs := PairDisjoint(group);
      forall j | 0 <= j < |pairs|
        ensures ScopedF(pairs[j], vars)
      {
        if j < |group| - 1 {
          assert pairs[j] == MultTest(TNo, RBin(Intersect, group[0], group[j + 1]));
        } else {
          assert pairs[j] == PairDisjoint(group[1..])[j - (|group| - 1)];
        }
      }
    }
  }

  lemma MarkedConsScoped(mult: SetMult, x: RelExpr, bound: RelExpr, vars: set<VarId>)
    requires ScopedR(x, vars) && ScopedR(bound, vars)
    ensures ScopedAll(MarkedCons(mult, x, bound), vars)
  {
  }

  lemma {:induction false} MarkedScoped(k: Tables, st: LState, bs: Binders, pol: Pol, d: SDecl, names: seq<string>, vars: set<VarId>)
    requires d.bound.Marked?
    requires Ready(k, st, bs) && LeavesExpr(k, d.bound.e) && MintMarked(k, st, bs, pol, d, names).Some? && ScopedBinders(bs, vars)
    ensures var m := MintMarked(k, st, bs, pol, d, names).value; m.fo == [] && m.disj == [] && ScopedAll(m.cons, vars) && ScopedBinders(m.bs, vars)
    decreases d, 1, |names|
  {
    hide LowerRel, MarkedCons;
    if names != [] {
      ExprScoped(k, st, bs, pol, d.bound.e, vars);
      ExprFacts(k, st, bs, pol, d.bound.e);
      var r := LowerRel(k, st, bs, pol, d.bound.e).value;
      var upper := UpperOf(k, r.1, r.0, r.1.nextVar).value;
      var st1 := MintSkolems(r.1, 1, upper);
      MintValid(k, r.1, 1, upper);
      ReadyGrows(k, r.1, bs, st1);
      ExprScoped(k, st1, bs, pol, d.bound.e, vars);
      ExprFacts(k, st1, bs, pol, d.bound.e);
      var c := LowerRel(k, st1, bs, pol, d.bound.e).value;
      var bs1 := bs + [(names[0], BExpr(Relation(r.1.nextRel)))];
      assert Ready(k, c.1, bs1);
      MarkedConsScoped(d.bound.mult, Relation(r.1.nextRel), c.0, vars);
      MarkedScoped(k, c.1, bs1, pol, d, names[1..], vars);
    }
  }

  // ------------------------------------------------------------------ goals

  /** A lowered goal is ordered and closed, as the memo's key analysis needs. */
  lemma GoalScoped(k: Tables, st: LState, pol: Pol, f: SFormula)
    requires Ready(k, st, []) && LeavesFormula(k, f) && LowerFormula(k, st, [], pol, f).Some?
    ensures var g := LowerFormula(k, st, [], pol, f).value.0; OrderedF(g) && FreeF(g) == {}
  {
    hide LowerFormula;
    FormulaScoped(k, st, [], pol, f, {});
  }
}
