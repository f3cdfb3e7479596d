/** What every lowering step keeps: tables stay valid and only grow, results mention only allocated ids,
    and nothing is minted where skolemisation is blocked. */
module LoweringFacts {
  import opened Wrappers
  import opened Ir
  import opened Plain
  import opened Freshness
  import opened Surface
  import opened AbstractUpper
  import opened Lowering

  ghost predicate Grows(st: LState, st': LState) {
    && st.nextVar <= st'.nextVar && st.nextRel <= st'.nextRel
    && st.skolems <= st'.skolems
    && (forall v | v in st.varBound :: v in st'.varBound && st'.varBound[v] == st.varBound[v])
    && (forall v | v in st'.varBound && v < st.nextVar :: v in st.varBound)
  }

  predicate CleanFormula(g: Formula, st: LState) {
    BelowFormula(g, st.nextVar, st.nextRel) && IntFreeFormula(g)
  }

  predicate CleanRel(r: RelExpr, st: LState) {
    BelowRel(r, st.nextVar, st.nextRel) && IntFreeRel(r)
  }

  predicate CleanAll(gs: seq<Formula>, st: LState) {
    forall j | 0 <= j < |gs| :: CleanFormula(gs[j], st)
  }

  /** A name's denotation from the bounds phase is closed. */
  predicate LeafOk(k: Tables, r: RelExpr) {
    BelowRel(r, 0, k.nextRel) && IntFreeRel(r)
  }

  predicate LeavesFormula(k: Tables, f: SFormula) {
    match f
    case FBlock(parts) => forall j | 0 <= j < |parts| :: LeavesFormula(k, parts[j])
    case FCompare(_, _, l, r) => LeavesExpr(k, l) && LeavesExpr(k, r)
    case FNot(g) => LeavesFormula(k, g)
    case FAnd(l, r) => LeavesFormula(k, l) && LeavesFormula(k, r)
    case FOr(l, r) => LeavesFormula(k, l) && LeavesFormula(k, r)
    case FImplies(l, r) => LeavesFormula(k, l) && LeavesFormula(k, r)
    case FIff(l, r) => LeavesFormula(k, l) && LeavesFormula(k, r)
    case FIte(g, t, e) => LeavesFormula(k, g) && LeavesFormula(k, t) && LeavesFormula(k, e)
    case FTest(_, e) => LeavesExpr(k, e)
    case FQuant(_, decls, body) =>
      (forall j | 0 <= j < |decls| :: LeavesExpr(k, decls[j].bound.e)) && LeavesFormula(k, body)
    case FLet(lets, body) =>
      (forall j | 0 <= j < |lets| ::
         if lets[j].LetRel? then LeavesExpr(k, lets[j].value) else LeavesFormula(k, lets[j].formula))
      && LeavesFormula(k, body)
    case FName(_, target) => LeavesFormula(k, target)
  }

  predicate LeavesExpr(k: Tables, e: SExpr) {
    match e
    case SLeaf(r) => LeafOk(k, r)
    case SName(_) => true
    case SBin(_, l, r) => LeavesExpr(k, l) && LeavesExpr(k, r)
    case SUn(_, g) => LeavesExpr(k, g)
    case SIte(c, t, g) => LeavesFormula(k, c) && LeavesExpr(k, t) && LeavesExpr(k, g)
    case SCompr(decls, body) =>
      (forall j | 0 <= j < |decls| :: LeavesExpr(k, decls[j].bound.e)) && LeavesFormula(k, body)
  }

  predicate LeavesDecls(k: Tables, decls: seq<SDecl>) {
    forall j | 0 <= j < |decls| :: LeavesExpr(k, decls[j].bound.e)
  }

  predicate LeavesLets(k: Tables, lets: seq<SLet>) {
    forall j | 0 <= j < |lets| ::
      if lets[j].LetRel? then LeavesExpr(k, lets[j].value) else LeavesFormula(k, lets[j].formula)
  }

  ghost predicate ValidBinding(k: Tables, b: Binding, j: nat, st: LState) {
    match b
    case BVar(v) => v < st.nextVar
    case BExpr(e) => CleanRel(e, st)
    case BFormula(target, depth) => depth == j && LeavesFormula(k, target)
  }

  ghost predicate ValidBinders(k: Tables, bs: Binders, st: LState) {
    forall j | 0 <= j < |bs| :: ValidBinding(k, bs[j].1, j, st)
  }

  /** The lowerer's working state is consistent. */
  ghost predicate Ready(k: Tables, st: LState, bs: Binders) {
    ValidState(k, st) && ValidBinders(k, bs, st)
  }

  lemma ReadyGrows(k: Tables, st: LState, bs: Binders, st': LState)
    requires Ready(k, st, bs) && ValidState(k, st') && Grows(st, st')
    ensures Ready(k, st', bs)
  {
    forall j | 0 <= j < |bs|
      ensures ValidBinding(k, bs[j].1, j, st')
    {
      assert ValidBinding(k, bs[j].1, j, st);
      if bs[j].1.BExpr? { CleanRelGrows(bs[j].1.value, st, st'); }
    }
  }

  lemma CleanRelGrows(r: RelExpr, st: LState, st': LState)
    requires CleanRel(r, st) && Grows(st, st')
    ensures CleanRel(r, st')
  {
    BelowRelGrows(r, st.nextVar, st.nextRel, st'.nextVar, st'.nextRel);
  }

  lemma CleanGrows(gs: seq<Formula>, st: LState, st': LState)
    requires CleanAll(gs, st) && Grows(st, st')
    ensures CleanAll(gs, st')
  {
    forall j | 0 <= j < |gs| { BelowFormulaGrows(gs[j], st.nextVar, st.nextRel, st'.nextVar, st'.nextRel); }
  }

  /** Variables allocated in order, each after its bound was built. */
  ghost predicate Ascending(fo: seq<CompDecl>, lo: nat, st: LState) {
    && (forall j | 0 <= j < |fo| :: lo <= fo[j].v < st.nextVar && BelowRel(fo[j].bound, fo[j].v, st.nextRel) && IntFreeRel(fo[j].bound))
    && (forall a, b | 0 <= a < b < |fo| :: fo[a].v < fo[b].v)
    && (forall j | 0 <= j < |fo| :: fo[j].v in st.varBound && st.varBound[fo[j].v] == fo[j].bound)
  }

  ghost predicate BoundFacts(k: Tables, st: LState, b: Bound, allowed: bool) {
    && Ready(k, b.st, b.bs) && Grows(st, b.st)
    && CleanAll(b.disj, b.st) && CleanAll(b.cons, b.st)
    && Ascending(b.fo, st.nextVar, b.st)
    && (!allowed ==> b.st.nextRel == st.nextRel && b.cons == [])
  }

  // ------------------------------------------------------------------ the lowerer's walk

  ghost predicate FormulaOut(k: Tables, st: LState, bs: Binders, pol: Pol, g: Formula, st': LState) {
    && Ready(k, st', bs) && Grows(st, st') && CleanFormula(g, st')
    && (pol.blocked ==> st'.nextRel == st.nextRel)
  }

  ghost predicate RelOut(k: Tables, st: LState, bs: Binders, r: RelExpr, st': LState) {
    && Ready(k, st', bs) && Grows(st, st') && CleanRel(r, st')
    && st'.nextRel == st.nextRel
  }

  lemma {:induction false} FormulaFacts(k: Tables, st: LState, bs: Binders, pol: Pol, f: SFormula)
    requires Ready(k, st, bs) && LeavesFormula(k, f) && LowerFormula(k, st, bs, pol, f).Some?
    ensures var (g, st') := LowerFormula(k, st, bs, pol, f).value; FormulaOut(k, st, bs, pol, g, st')
    decreases f, 1
  {
    hide LowerRel;
    match f
    case FBlock(parts) => PartsFacts(k, st, bs, BlockedIf(pol, !pol.positive && |parts| >= 2), parts);
    case FCompare(_, _, _, _) => CompareFacts(k, st, bs, pol, f);
    case FNot(h) => FormulaFacts(k, st, bs, Flipped(pol), h);
    case FAnd(_, _) => BinaryFacts(k, st, bs, pol, f);
    case FOr(_, _) => BinaryFacts(k, st, bs, pol, f);
    case FImplies(_, _) => BinaryFacts(k, st, bs, pol, f);
    case FIff(_, _) => BinaryFacts(k, st, bs, pol, f);
    case FIte(_, _, _) => IteFacts(k, st, bs, pol, f);
    case FTest(test, e) => ExprFacts(k, st, bs, pol, e);
    case FQuant(quant, decls, body) => QuantFacts(k, st, bs, pol, f);
    case FLet(_, _) => ScopeFacts(k, st, bs, pol, f);
    case FName(_, _) => ScopeFacts(k, st, bs, pol, f);
  }

  lemma {:induction false} CompareFacts(k: Tables, st: LState, bs: Binders, pol: Pol, f: SFormula)
    requires f.FCompare?
    requires Ready(k, st, bs) && LeavesFormula(k, f) && LowerFormula(k, st, bs, pol, f).Some?
    ensures var (g, st') := LowerFormula(k, st, bs, pol, f).value; FormulaOut(k, st, bs, pol, g, st')
    decreases f, 0, 1
  {
    ExprFacts(k, st, bs, pol, f.l);
    var a := LowerRel(k, st, bs, pol, f.l).value;
    ExprFacts(k, a.1, bs, pol, f.r);
    CleanRelGrows(a.0, a.1, LowerRel(k, a.1, bs, pol, f.r).value.1);
  }

  lemma {:induction false} BinaryFacts(k: Tables, st: LState, bs: Binders, pol: Pol, f: SFormula)
    requires Binary(f)
    requires Ready(k, st, bs) && LeavesFormula(k, f) && LowerFormula(k, st, bs, pol, f).Some?
    ensures var (g, st') := LowerFormula(k, st, bs, pol, f).value; FormulaOut(k, st, bs, pol, g, st')
    decreases f, 0, 1
  {
    hide LowerFormula, Ready, CleanFormula, LowerRel, BelowFormula, IntFreeFormula;
    BinaryUnfolds(k, st, bs, pol, f);
    TwoFacts(k, st, bs, LeftPol(f, pol), RightPol(f, pol), f.left, f.right, f);
    var a := LowerFormula(k, st, bs, LeftPol(f, pol), f.left).value;
    var b := LowerFormula(k, a.1, bs, RightPol(f, pol), f.right).value;
    PairClean(a.0, b.0, b.1);
  }

  lemma PairClean(a: Formula, b: Formula, st: LState)
    requires CleanFormula(a, st) && CleanFormula(b, st)
    ensures CleanFormula(And([a, b]), st) && CleanFormula(Or([a, b]), st)
    ensures CleanFormula(Implies(a, b), st) && CleanFormula(Iff(a, b), st)
  {
    AndClean([a, b], st);
  }

  lemma {:induction false} IteFacts(k: Tables, st: LState, bs: Binders, pol: Pol, f: SFormula)
    requires f.FIte?
    requires Ready(k, st, bs) && LeavesFormula(k, f) && LowerFormula(k, st, bs, pol, f).Some?
    ensures var (g, st') := LowerFormula(k, st, bs, pol, f).value; FormulaOut(k, st, bs, pol, g, st')
    decreases f, 0, 1
  {
    hide LowerRel, BindDecl;
    var c := LowerFormula(k, st, bs, Blocked(pol), f.cond).value;
    FormulaFacts(k, st, bs, Blocked(pol), f.cond);
    TwoFacts(k, c.1, bs, Blocked(pol), Blocked(pol), f.t, f.els, f);
    var a := LowerFormula(k, c.1, bs, Blocked(pol), f.t).value;
    var b := LowerFormula(k, a.1, bs, Blocked(pol), f.els).value;
    CleanFormulaGrows(c.0, c.1, b.1);
    IteClean(c.0, a.0, b.0, b.1);
  }

  lemma {:induction false} ScopeFacts(k: Tables, st: LState, bs: Binders, pol: Pol, f: SFormula)
    requires f.FLet? || f.FName?
    requires Ready(k, st, bs) && LeavesFormula(k, f) && LowerFormula(k, st, bs, pol, f).Some?
    ensures var (g, st') := LowerFormula(k, st, bs, pol, f).value; FormulaOut(k, st, bs, pol, g, st')
    decreases f, 0, 0
  {
    hide LowerRel, BindDecl, IntFreeFormula;
    match f
    case FLet(lets, body) =>
      LetsFacts(k, st, bs, pol, lets);
      var p := PushLets(k, st, bs, pol, lets).value;
      FormulaFacts(k, p.1, p.0, pol, body);
      ReadyGrows(k, st, bs, LowerFormula(k, st, bs, pol, f).value.1);
    case FName(x, target) =>
      var n := Find(bs, x).value;
      assert ValidBinding(k, bs[n].1, n, st);
      FormulaFacts(k, st, bs[..n], pol, target);
      ReadyGrows(k, st, bs, LowerFormula(k, st, bs, pol, f).value.1);
  }

  lemma IteClean(c: Formula, a: Formula, b: Formula, st: LState)
    requires CleanFormula(c, st) && CleanFormula(a, st) && CleanFormula(b, st)
    ensures CleanFormula(Or([And([c, a]), And([Not(c), b])]), st)
  {
    var t, e := [c, a], [Not(c), b];
    assert CleanAll(t, st) && CleanAll(e, st);
    AndClean(t, st);
    AndClean(e, st);
    var parts := [And(t), And(e)];
    assert CleanAll(parts, st);
  }

  lemma AndClean(gs: seq<Formula>, st: LState)
    requires CleanAll(gs, st)
    ensures CleanFormula(And(gs), st) && CleanFormula(Or(gs), st)
  {
  }

  lemma NotClean(g: Formula, st: LState)
    requires CleanFormula(g, st)
    ensures CleanFormula(Not(g), st)
  {
  }

  lemma TestClean(test: MultTest, r: RelExpr, st: LState)
    requires CleanRel(r, st)
    ensures CleanFormula(MultTest(test, r), st)
  {
  }

  lemma CleanFormulaGrows(g: Formula, st: LState, st': LState)
    requires CleanFormula(g, st) && Grows(st, st')
    ensures CleanFormula(g, st')
  {
    BelowFormulaGrows(g, st.nextVar, st.nextRel, st'.nextVar, st'.nextRel);
  }

  /** Two subformulas of one owner, lowered one after the other. */
  lemma {:induction false} TwoFacts(k: Tables, st: LState, bs: Binders, p: Pol, q: Pol, l: SFormula, r: SFormula, owner: SFormula)
    requires l < owner && r < owner
    requires Ready(k, st, bs) && LeavesFormula(k, l) && LeavesFormula(k, r)
    requires LowerFormula(k, st, bs, p, l).Some?
    requires LowerFormula(k, LowerFormula(k, st, bs, p, l).value.1, bs, q, r).Some?
    ensures var a := LowerFormula(k, st, bs, p, l).value;
      var b := LowerFormula(k, a.1, bs, q, r).value;
      && FormulaOut(k, st, bs, p, a.0, a.1) && FormulaOut(k, a.1, bs, q, b.0, b.1)
      && Grows(st, b.1) && CleanFormula(a.0, b.1)
    decreases owner, 0, 0
  {
    hide LowerFormula;
    FormulaFacts(k, st, bs, p, l);
    var a := LowerFormula(k, st, bs, p, l).value;
    FormulaFacts(k, a.1, bs, q, r);
    CleanFormulaGrows(a.0, a.1, LowerFormula(k, a.1, bs, q, r).value.1);
  }

  lemma {:induction false} PartsFacts(k: Tables, st: LState, bs: Binders, pol: Pol, parts: seq<SFormula>)
    requires Ready(k, st, bs) && LowerParts(k, st, bs, pol, parts).Some?
    requires forall j | 0 <= j < |parts| :: LeavesFormula(k, parts[j])
    ensures var (gs, st') := LowerParts(k, st, bs, pol, parts).value;
      && Ready(k, st', bs) && Grows(st, st') && CleanAll(gs, st') && |gs| == |parts|
      && (pol.blocked ==> st'.nextRel == st.nextRel)
    decreases parts, 1
  {
    hide LowerFormula, LeavesFormula;
    if parts != [] {
      FormulaFacts(k, st, bs, pol, parts[0]);
      var a := LowerFormula(k, st, bs, pol, parts[0]).value;
      PartsFacts(k, a.1, bs, pol, parts[1..]);
      CleanFormulaGrows(a.0, a.1, LowerParts(k, st, bs, pol, parts).value.1);
    }
  }

  /** The polarity of a quantifier's body. */
  function BodyPol(q: SQuant, pol: Pol): Pol {
    Pol(if q == QuNo then !pol.positive else pol.positive, pol.blocked || !EffectiveExistential(q, pol))
  }

  /** What lowering an `all`, `some` or `no` gives, from its declarations' binding and its body. */
  lemma QuantUnfolds(k: Tables, st: LState, bs: Binders, pol: Pol, f: SFormula)
    requires f.FQuant? && f.quant != QuOne && f.quant != QuLone
    ensures var o := BindDecls(k, st, bs, pol, f.decls, EffectiveExistential(f.quant, pol) && !pol.blocked);
      if o.None? then LowerFormula(k, st, bs, pol, f).None?
      else
        var r := LowerFormula(k, o.value.st, o.value.bs, BodyPol(f.quant, pol), f.body);
        if r.None? then LowerFormula(k, st, bs, pol, f).None?
        else
          var inner := Guarded(f.quant, o.value, if f.quant == QuNo then Not(r.value.0) else r.value.0);
          LowerFormula(k, st, bs, pol, f) == Some((WrapQuants(if f.quant == QuSome then QSome else QAll, o.value.fo, inner), r.value.1))
  {
  }

  lemma CountUnfolds(k: Tables, st: LState, bs: Binders, pol: Pol, f: SFormula)
    requires f.FQuant? && (f.quant == QuOne || f.quant == QuLone)
    ensures var o := BindDecls(k, st, bs, Blocked(pol), f.decls, false);
      if o.None? then LowerFormula(k, st, bs, pol, f).None?
      else
        var r := LowerFormula(k, o.value.st, o.value.bs, Blocked(pol), f.body);
        if r.None? then LowerFormula(k, st, bs, pol, f).None?
        else
          LowerFormula(k, st, bs, pol, f)
          == Some((MultTest(if f.quant == QuOne then TOne else TLone, MakeComprehension(o.value, r.value.0)), r.value.1))
  {
  }

  predicate Binary(f: SFormula) {
    f.FAnd? || f.FOr? || f.FImplies? || f.FIff?
  }

  function LeftPol(f: SFormula, pol: Pol): Pol
    requires Binary(f)
  {
    if f.FImplies? then Flipped(RightPol(f, pol)) else RightPol(f, pol)
  }

  /** A connective's operands are blocked where its polarity makes it a choice between them. */
  function RightPol(f: SFormula, pol: Pol): Pol
    requires Binary(f)
  {
    if f.FIff? then Blocked(pol) else BlockedIf(pol, if f.FAnd? then !pol.positive else pol.positive)
  }

  function Connected(f: SFormula, a: Formula, b: Formula): Formula
    requires Binary(f)
  {
    match f
    case FAnd(_, _) => And([a, b])
    case FOr(_, _) => Or([a, b])
    case FImplies(_, _) => Implies(a, b)
    case FIff(_, _) => Iff(a, b)
  }

  lemma BinaryUnfolds(k: Tables, st: LState, bs: Binders, pol: Pol, f: SFormula)
    requires Binary(f)
    ensures var a := LowerFormula(k, st, bs, LeftPol(f, pol), f.left);
      if a.None? then LowerFormula(k, st, bs, pol, f).None?
      else
        var b := LowerFormula(k, a.value.1, bs, RightPol(f, pol), f.right);
        if b.None? then LowerFormula(k, st, bs, pol, f).None?
        else LowerFormula(k, st, bs, pol, f) == Some((Connected(f, a.value.0, b.value.0), b.value.1))
  {
  }

  lemma {:induction false} QuantFacts(k: Tables, st: LState, bs: Binders, pol: Pol, f: SFormula)
    requires f.FQuant?
    requires Ready(k, st, bs) && LeavesFormula(k, f) && LowerFormula(k, st, bs, pol, f).Some?
    ensures var (g, st') := LowerFormula(k, st, bs, pol, f).value; FormulaOut(k, st, bs, pol, g, st')
    decreases f, 0, 1
  {
    hide LowerFormula, LowerRel, BindDecl, IntFreeFormula;
    if f.quant == QuOne || f.quant == QuLone {
      CountFacts(k, st, bs, pol, f);
    } else {
      hide LowerFormula, WrapQuants, Guarded, CleanFormula, CleanAll, Ascending, ValidBinders;
      QuantUnfolds(k, st, bs, pol, f);
      var allowed := EffectiveExistential(f.quant, pol) && !pol.blocked;
      var b := BindDecls(k, st, bs, pol, f.decls, allowed).value;
      DeclsFacts(k, st, bs, pol, f.decls, allowed);
      FormulaFacts(k, b.st, b.bs, BodyPol(f.quant, pol), f.body);
      var r := LowerFormula(k, b.st, b.bs, BodyPol(f.quant, pol), f.body).value;
      NotClean(r.0, r.1);
      WrappedClean(f.quant, b, if f.quant == QuNo then Not(r.0) else r.0, st, r.1);
      ReadyGrows(k, st, bs, r.1);
    }
  }

  lemma {:induction false} CountFacts(k: Tables, st: LState, bs: Binders, pol: Pol, f: SFormula)
    requires f.FQuant? && (f.quant == QuOne || f.quant == QuLone)
    requires Ready(k, st, bs) && LeavesFormula(k, f) && LowerFormula(k, st, bs, pol, f).Some?
    ensures var (g, st') := LowerFormula(k, st, bs, pol, f).value; FormulaOut(k, st, bs, pol, g, st')
    decreases f, 0, 0
  {
    hide LowerFormula, MakeComprehension, CleanFormula, CleanRel, CleanAll;
    hide Ascending, ValidBinders, LowerRel, BindDecl, IntFreeFormula;
    CountUnfolds(k, st, bs, pol, f);
    var b := BindDecls(k, st, bs, Blocked(pol), f.decls, false).value;
    DeclsFacts(k, st, bs, Blocked(pol), f.decls, false);
    FormulaFacts(k, b.st, b.bs, Blocked(pol), f.body);
    var r := LowerFormula(k, b.st, b.bs, Blocked(pol), f.body).value;
    ComprehensionClean(k, st, b, r.0, r.1);
    TestClean(if f.quant == QuOne then TOne else TLone, MakeComprehension(b, r.0), r.1);
    ReadyGrows(k, st, bs, r.1);
  }

  lemma WrappedClean(q: SQuant, b: Bound, inner: Formula, st: LState, st': LState)
    requires CleanAll(b.disj, b.st) && CleanAll(b.cons, b.st) && Ascending(b.fo, st.nextVar, b.st)
    requires Grows(b.st, st') && CleanFormula(inner, st')
    ensures CleanFormula(WrapQuants(if q == QuSome then QSome else QAll, b.fo, Guarded(q, b, inner)), st')
  {
    CleanGrows(b.disj, b.st, st');
    CleanGrows(b.cons, b.st, st');
    GuardedClean(q, b, inner, st');
    WrapClean(if q == QuSome then QSome else QAll, b.fo, Guarded(q, b, inner), st.nextVar, b.st, st');
  }

  lemma GuardedClean(q: SQuant, b: Bound, inner: Formula, st: LState)
    requires CleanAll(b.disj, st) && CleanAll(b.cons, st) && CleanFormula(inner, st)
    ensures CleanFormula(Guarded(q, b, inner), st)
  {
    hide LowerFormula;
    ConjoinClean(b.disj, st);
    var guards := (if b.disj == [] then [] else [Conjoin(b.disj)]) + b.cons;
    assert CleanAll(guards, st);
    ConjoinClean(guards, st);
  }

  lemma ConjoinClean(gs: seq<Formula>, st: LState)
    requires CleanAll(gs, st)
    ensures CleanFormula(Conjoin(gs), st)
  {
  }

  lemma {:induction false} WrapClean(kind: QuantKind, fo: seq<CompDecl>, inner: Formula, lo: nat, st: LState, st': LState)
    requires Ascending(fo, lo, st) && Grows(st, st') && CleanFormula(inner, st')
    ensures CleanFormula(WrapQuants(kind, fo, inner), st')
    decreases |fo|
  {
    hide LowerFormula;
    if fo != [] {
      BelowRelGrows(fo[0].bound, fo[0].v, st.nextRel, st'.nextVar, st'.nextRel);
      WrapClean(kind, fo[1..], inner, lo, st, st');
    }
  }

  lemma ComprehensionClean(k: Tables, st: LState, b: Bound, body: Formula, st': LState)
    requires BoundFacts(k, st, b, false) && Grows(b.st, st') && CleanFormula(body, st')
    ensures CleanRel(MakeComprehension(b, body), st')
  {
    CleanGrows(b.disj, b.st, st');
    ConjoinClean(b.disj, st');
    forall j | 0 <= j < |b.fo|
      ensures b.fo[j].v < st'.nextVar && CleanRel(b.fo[j].bound, st')
    {
      BelowRelGrows(b.fo[j].bound, b.fo[j].v, b.st.nextRel, st'.nextVar, st'.nextRel);
    }
  }

  lemma {:induction false} LetsFacts(k: Tables, st: LState, bs: Binders, pol: Pol, lets: seq<SLet>)
    requires Ready(k, st, bs) && LeavesLets(k, lets) && PushLets(k, st, bs, pol, lets).Some?
    ensures var (bs', st') := PushLets(k, st, bs, pol, lets).value;
      Ready(k, st', bs') && Grows(st, st') && st'.nextRel == st.nextRel && bs <= bs'
    decreases lets, 1
  {
    hide LowerFormula, LowerRel, LeavesFormula, BelowFormula, IntFreeFormula;
    if lets != [] {
      assert LeavesLets(k, lets[1..]);
      match lets[0]
      case LetRel(x, e) =>
        ExprFacts(k, st, bs, pol, e);
        var r := LowerRel(k, st, bs, pol, e).value;
        LetsFacts(k, r.1, bs + [(x, BExpr(r.0))], pol, lets[1..]);
      case LetFormula(x, g) =>
        LetsFacts(k, st, bs + [(x, BFormula(g, |bs|))], pol, lets[1..]);
    }
  }

  lemma {:induction false} ExprFacts(k: Tables, st: LState, bs: Binders, pol: Pol, e: SExpr)
    requires Ready(k, st, bs) && LeavesExpr(k, e) && LowerRel(k, st, bs, pol, e).Some?
    ensures var (r, st') := LowerRel(k, st, bs, pol, e).value; RelOut(k, st, bs, r, st')
    decreases e, 1
  {
    hide LowerFormula, LeavesFormula, BelowFormula, BindDecl;
    match e
    case SLeaf(r) => BelowRelGrows(r, 0, k.nextRel, st.nextVar, st.nextRel);
    case SName(_) => NameFacts(k, st, bs, pol, e);
    case SBin(_, _, _) => BinFacts(k, st, bs, pol, e);
    case SUn(_, g) => ExprFacts(k, st, bs, pol, g);
    case SIte(_, _, _) => ChoiceFacts(k, st, bs, pol, e);
    case SCompr(_, _) => ComprehensionFacts(k, st, bs, pol, e);
  }

  lemma NameFacts(k: Tables, st: LState, bs: Binders, pol: Pol, e: SExpr)
    requires e.SName? && Ready(k, st, bs) && LowerRel(k, st, bs, pol, e).Some?
    ensures var (r, st') := LowerRel(k, st, bs, pol, e).value; RelOut(k, st, bs, r, st')
  {
    hide LowerFormula, LeavesFormula, BindDecl;
    var n := Find(bs, e.name).value;
    assert ValidBinding(k, bs[n].1, n, st);
  }

  lemma {:induction false} BinFacts(k: Tables, st: LState, bs: Binders, pol: Pol, e: SExpr)
    requires e.SBin?
    requires Ready(k, st, bs) && LeavesExpr(k, e) && LowerRel(k, st, bs, pol, e).Some?
    ensures var (r, st') := LowerRel(k, st, bs, pol, e).value; RelOut(k, st, bs, r, st')
    decreases e, 0
  {
    hide Ready, LowerFormula, BindDecl;
    ExprFacts(k, st, bs, pol, e.l);
    var a := LowerRel(k, st, bs, pol, e.l).value;
    ExprFacts(k, a.1, bs, pol, e.r);
    CleanRelGrows(a.0, a.1, LowerRel(k, a.1, bs, pol, e.r).value.1);
  }

  lemma {:induction false} ChoiceFacts(k: Tables, st: LState, bs: Binders, pol: Pol, e: SExpr)
    requires e.SIte?
    requires Ready(k, st, bs) && LeavesExpr(k, e) && LowerRel(k, st, bs, pol, e).Some?
    ensures var (r, st') := LowerRel(k, st, bs, pol, e).value; RelOut(k, st, bs, r, st')
    decreases e, 0
  {
    hide Ready, LowerFormula, LeavesFormula, BindDecl;
    FormulaFacts(k, st, bs, Blocked(pol), e.cond);
    var h := LowerFormula(k, st, bs, Blocked(pol), e.cond).value;
    ExprFacts(k, h.1, bs, pol, e.t);
    var a := LowerRel(k, h.1, bs, pol, e.t).value;
    ExprFacts(k, a.1, bs, pol, e.els);
    var st' := LowerRel(k, a.1, bs, pol, e.els).value.1;
    CleanFormulaGrows(h.0, h.1, st');
    CleanRelGrows(a.0, a.1, st');
  }

  lemma {:induction false} ComprehensionFacts(k: Tables, st: LState, bs: Binders, pol: Pol, e: SExpr)
    requires e.SCompr?
    requires Ready(k, st, bs) && LeavesExpr(k, e) && LowerRel(k, st, bs, pol, e).Some?
    ensures var (r, st') := LowerRel(k, st, bs, pol, e).value; RelOut(k, st, bs, r, st')
    decreases e, 0
  {
    hide CleanRel, MakeComprehension, LowerFormula, LeavesFormula, BindDecl;
    var b := BindDecls(k, st, bs, Blocked(pol), e.decls, false).value;
    DeclsFacts(k, st, bs, Blocked(pol), e.decls, false);
    FormulaFacts(k, b.st, b.bs, Blocked(pol), e.body);
    var r := LowerFormula(k, b.st, b.bs, Blocked(pol), e.body).value;
    ComprehensionClean(k, st, b, r.0, r.1);
    ReadyGrows(k, st, bs, r.1);
  }

  lemma {:induction false} DeclsFacts(k: Tables, st: LState, bs: Binders, pol: Pol, decls: seq<SDecl>, allowed: bool)
    requires Ready(k, st, bs) && LeavesDecls(k, decls) && BindDecls(k, st, bs, pol, decls, allowed).Some?
    ensures BoundFacts(k, st, BindDecls(k, st, bs, pol, decls, allowed).value, allowed)
    decreases decls, 1
  {
    hide BindDecl;
    if decls != [] {
      DeclFacts(k, st, bs, pol, decls[0], allowed);
      var a := BindDecl(k, st, bs, pol, decls[0], allowed).value;
      assert LeavesDecls(k, decls[1..]);
      DeclsFacts(k, a.st, a.bs, pol, decls[1..], allowed);
      var b := BindDecls(k, a.st, a.bs, pol, decls[1..], allowed).value;
      CleanGrows(a.disj, a.st, b.st);
      CleanGrows(a.cons, a.st, b.st);
      AscendingJoin(a.fo, b.fo, st.nextVar, a.st, b.st);
    }
  }

  lemma AscendingJoin(a: seq<CompDecl>, b: seq<CompDecl>, lo: nat, mid: LState, st': LState)
    requires Ascending(a, lo, mid) && Ascending(b, mid.nextVar, st') && Grows(mid, st') && lo <= mid.nextVar
    ensures Ascending(a + b, lo, st')
  {
    forall j | 0 <= j < |a| { BelowRelGrows(a[j].bound, a[j].v, mid.nextRel, a[j].v, st'.nextRel); }
  }

  lemma {:induction false} DeclFacts(k: Tables, st: LState, bs: Binders, pol: Pol, d: SDecl, allowed: bool)
    requires Ready(k, st, bs) && LeavesExpr(k, d.bound.e) && BindDecl(k, st, bs, pol, d, allowed).Some?
    ensures BoundFacts(k, st, BindDecl(k, st, bs, pol, d, allowed).value, allowed)
    decreases d, 2
  {
    if d.bound.Marked? {
      MarkedDeclFacts(k, st, bs, pol, d);
    } else {
      ExprFacts(k, st, bs, pol, d.bound.e);
      var (bound, st1) := LowerRel(k, st, bs, pol, d.bound.e).value;
      var n := |d.names|;
      var upper := UpperOf(k, st1, bound, st1.nextVar);
      if allowed && upper.Some? {
        MintedFacts(k, st1, bs, bound, d, upper.value);
      } else {
        AllocFacts(k, st1, bs, bound, d);
      }
    }
  }

  lemma {:induction false} MarkedDeclFacts(k: Tables, st: LState, bs: Binders, pol: Pol, d: SDecl)
    requires d.bound.Marked?
    requires Ready(k, st, bs) && LeavesExpr(k, d.bound.e) && BindDecl(k, st, bs, pol, d, true).Some?
    ensures BoundFacts(k, st, BindDecl(k, st, bs, pol, d, true).value, true)
    decreases d, 1, |d.names| + 1
  {
    hide LowerFormula, LowerRel, LeavesFormula;
    var b := BindDecl(k, st, bs, pol, d, true).value;
    MarkedFacts(k, st, bs, pol, d, d.names);
    var group := Group(b.bs, |d.names|);
    forall j | 0 <= j < |group|
      ensures CleanRel(group[j], b.st)
    {
      if |d.names| <= |b.bs| { assert ValidBinding(k, b.bs[|b.bs| - |d.names| + j].1, |b.bs| - |d.names| + j, b.st); }
    }
    DisjointClean(d.disj, group, b.st);
  }

  /** A declaration turned into skolem constants. */
  lemma MintedFacts(k: Tables, st: LState, bs: Binders, bound: RelExpr, d: SDecl, upper: Upper)
    requires Ready(k, st, bs) && CleanRel(bound, st)
    ensures var n := |d.names|;
      var group := RelRange(st.nextRel, n);
      BoundFacts(k, st, Bound([], [], SkolemCons(group, bound) + GroupDisjoint(d.disj, group), PushExprs(bs, d.names, group), MintSkolems(st, n, upper)), true)
  {
    hide LeavesFormula, BelowFormula;
    var n := |d.names|;
    var st' := MintSkolems(st, n, upper);
    MintValid(k, st, n, upper);
    ReadyGrows(k, st, bs, st');
    CleanRelGrows(bound, st, st');
    SkolemConsClean(RelRange(st.nextRel, n), bound, st');
    DisjointClean(d.disj, RelRange(st.nextRel, n), st');
  }

  /** A declaration turned into quantified variables. */
  lemma AllocFacts(k: Tables, st: LState, bs: Binders, bound: RelExpr, d: SDecl)
    requires Ready(k, st, bs) && CleanRel(bound, st)
    ensures var n := |d.names|;
      BoundFacts(k, st, Bound(seq(n, j requires 0 <= j < n => CompDecl(st.nextVar + j, bound)), GroupDisjoint(d.disj, VarRange(st.nextVar, n)), [],
                              PushVars(bs, d.names, st.nextVar), AllocVars(st, n, bound)), false)
  {
    var n := |d.names|;
    var st' := AllocVars(st, n, bound);
    AllocValid(k, st, n, bound);
    ReadyGrows(k, st, bs, st');
    DisjointClean(d.disj, VarRange(st.nextVar, n), st');
    BoundsBelow(bound, st, n);
  }

  lemma MintValid(k: Tables, st: LState, n: nat, upper: Upper)
    requires ValidState(k, st)
    ensures ValidState(k, MintSkolems(st, n, upper)) && Grows(st, MintSkolems(st, n, upper))
  {
    forall v | v in st.varBound { BelowRelGrows(st.varBound[v], v, st.nextRel, v, st.nextRel + n); }
  }

  lemma AllocValid(k: Tables, st: LState, n: nat, bound: RelExpr)
    requires ValidState(k, st) && CleanRel(bound, st)
    ensures ValidState(k, AllocVars(st, n, bound)) && Grows(st, AllocVars(st, n, bound))
  {
    forall v | st.nextVar <= v < st.nextVar + n { BelowRelGrows(bound, st.nextVar, st.nextRel, v, st.nextRel); }
  }

  lemma BoundsBelow(bound: RelExpr, st: LState, n: nat)
    requires CleanRel(bound, st)
    ensures forall v: VarId | st.nextVar <= v < st.nextVar + n :: BelowRel(bound, v, st.nextRel)
  {
    forall v: VarId | st.nextVar <= v < st.nextVar + n { BelowRelGrows(bound, st.nextVar, st.nextRel, v, st.nextRel); }
  }

  lemma {:induction false} SkolemConsClean(group: seq<RelExpr>, bound: RelExpr, st: LState)
    requires CleanRel(bound, st) && forall j | 0 <= j < |group| :: CleanRel(group[j], st)
    ensures CleanAll(SkolemCons(group, bound), st)
    decreases |group|
  {
    if group != [] { SkolemConsClean(group[1..], bound, st); }
  }

  lemma DisjointClean(disj: bool, group: seq<RelExpr>, st: LState)
    requires forall j | 0 <= j < |group| :: CleanRel(group[j], st)
    ensures CleanAll(GroupDisjoint(disj, group), st)
  {
    PairDisjointClean(group, st);
  }

  lemma {:induction false} PairDisjointClean(group: seq<RelExpr>, st: LState)
    requires forall j | 0 <= j < |group| :: CleanRel(group[j], st)
    ensures CleanAll(PairDisjoint(group), st)
    decreases |group|
  {
    if group != [] {
      PairDisjointClean(group[1..], st);
      var pairs := PairDisjoint(group);
      forall j | 0 <= j < |pairs|
        ensures CleanFormula(pairs[j], st)
      {
        if j < |group| - 1 {
          assert pairs[j] == MultTest(TNo, RBin(Intersect, group[0], group[j + 1]));
        } else {
          assert pairs[j] == PairDisjoint(group[1..])[j - (|group| - 1)];
        }
      }
    }
  }

  /** Minting one relation for a name of a group, its bound lowered before and after. */
  lemma {:induction false} MarkedStep(k: Tables, st: LState, bs: Binders, pol: Pol, d: SDecl, names: seq<string>) returns (x: RelExpr, bound: RelExpr, st1: LState)
    requires d.bound.Marked? && names != []
    requires Ready(k, st, bs) && LeavesExpr(k, d.bound.e) && MintMarked(k, st, bs, pol, d, names).Some?
    ensures Ready(k, st1, bs + [(names[0], BExpr(x))]) && Grows(st, st1) && CleanRel(x, st1) && CleanRel(bound, st1)
    ensures var rest := MintMarked(k, st1, bs + [(names[0], BExpr(x))], pol, d, names[1..]);
      rest.Some? && MintMarked(k, st, bs, pol, d, names).value == Bound([], [], MarkedCons(d.bound.mult, x, bound) + rest.value.cons, rest.value.bs, rest.value.st)
    decreases d, 1, |names|, 0
  {
    hide LowerRel, MarkedCons;
    ExprFacts(k, st, bs, pol, d.bound.e);
    var r := LowerRel(k, st, bs, pol, d.bound.e).value;
    var upper := UpperOf(k, r.1, r.0, r.1.nextVar).value;
    var minted := MintSkolems(r.1, 1, upper);
    MintValid(k, r.1, 1, upper);
    ReadyGrows(k, r.1, bs, minted);
    ExprFacts(k, minted, bs, pol, d.bound.e);
    x := Relation(r.1.nextRel);
    var c := LowerRel(k, minted, bs, pol, d.bound.e).value;
    bound, st1 := c.0, c.1;
  }

  lemma {:induction false} MarkedFacts(k: Tables, st: LState, bs: Binders, pol: Pol, d: SDecl, names: seq<string>)
    requires d.bound.Marked?
    requires Ready(k, st, bs) && LeavesExpr(k, d.bound.e) && MintMarked(k, st, bs, pol, d, names).Some?
    ensures var m := MintMarked(k, st, bs, pol, d, names).value;
      BoundFacts(k, st, m, true) && m.fo == [] && m.disj == []
    decreases d, 1, |names|
  {
    hide LowerRel;
    if names != [] {
      hide MintMarked, MarkedCons, ValidBinders, ValidState;
      var x, bound, st1 := MarkedStep(k, st, bs, pol, d, names);
      var bs1 := bs + [(names[0], BExpr(x))];
      MarkedFacts(k, st1, bs1, pol, d, names[1..]);
      var rest := MintMarked(k, st1, bs1, pol, d, names[1..]).value;
      CleanRelGrows(x, st1, rest.st);
      CleanRelGrows(bound, st1, rest.st);
      MarkedConsClean(d.bound.mult, x, bound, rest.st);
    }
  }

  lemma MarkedConsClean(mult: SetMult, x: RelExpr, bound: RelExpr, st: LState)
    requires CleanRel(x, st) && CleanRel(bound, st)
    ensures CleanAll(MarkedCons(mult, x, bound), st)
  {
  }
}
