/** Forbid-mode evaluation and negation normal form (crates/als-core/src/eval.rs): pushing a negation
    inward flips the guard's polarity and the effective quantifier kind together, so the verdict
    stays, provided no guard can fire inside the operands and bounds it crosses. */
module NegationNormalForm {
  import opened Algebra
  import opened LexOrder
  import opened Arithmetic
  import opened Ir
  import opened Folder
  import opened Semantics

  // ------------------------------------------------------------------ guard-free expressions

  // No guard fires inside these, so polarity and enclosing quantifiers cannot be seen: a comparison of
  // integers is guarded by its operands, a test of relations by the overflow-capable casts it reaches.
  // When overflow is allowed there is no guard at all.

  predicate GuardFreeFormula(allow: bool, bw: nat, f: Formula) {
    match f
    case Not(g) => GuardFreeFormula(allow, bw, g)
    case And(parts) => forall k | 0 <= k < |parts| :: GuardFreeFormula(allow, bw, parts[k])
    case Or(parts) => forall k | 0 <= k < |parts| :: GuardFreeFormula(allow, bw, parts[k])
    case Implies(a, k) => GuardFreeFormula(allow, bw, a) && GuardFreeFormula(allow, bw, k)
    case Iff(l, r) => GuardFreeFormula(allow, bw, l) && GuardFreeFormula(allow, bw, r)
    case RelCompare(_, l, r) =>
      GuardFreeRel(allow, bw, l) && GuardFreeRel(allow, bw, r) && (allow || (CastFree(bw, l) && CastFree(bw, r)))
    case IntCompare(_, l, r) => allow && GuardFreeInt(allow, bw, l) && GuardFreeInt(allow, bw, r)
    case MultTest(_, e) => GuardFreeRel(allow, bw, e) && (allow || CastFree(bw, e))
    case Quant(_, _, bound, body) => GuardFreeRel(allow, bw, bound) && GuardFreeFormula(allow, bw, body)
    case Const(_) => true
    case LoopIs(_) => true
  }

  predicate GuardFreeRel(allow: bool, bw: nat, r: RelExpr) {
    match r
    case RBin(_, l, rr) => GuardFreeRel(allow, bw, l) && GuardFreeRel(allow, bw, rr)
    case RUn(_, e) => GuardFreeRel(allow, bw, e)
    case RIte(cond, t, e) => GuardFreeFormula(allow, bw, cond) && GuardFreeRel(allow, bw, t) && GuardFreeRel(allow, bw, e)
    case Comprehension(decls, body) =>
      (forall k | 0 <= k < |decls| :: GuardFreeRel(allow, bw, decls[k].bound)) && GuardFreeFormula(allow, bw, body)
    case IntToAtom(ie) => GuardFreeInt(allow, bw, ie)
    case _ => true
  }

  predicate GuardFreeInt(allow: bool, bw: nat, i: IntExpr) {
    match i
    case IConst(_) => true
    case Card(r) => GuardFreeRel(allow, bw, r)
    case AtomToInt(r) => GuardFreeRel(allow, bw, r)
    case Neg(j) => GuardFreeInt(allow, bw, j)
    case IBin(_, l, r) => GuardFreeInt(allow, bw, l) && GuardFreeInt(allow, bw, r)
    case Sum(_, bound, body) => GuardFreeRel(allow, bw, bound) && GuardFreeInt(allow, bw, body)
    case IIte(cond, t, e) => GuardFreeFormula(allow, bw, cond) && GuardFreeInt(allow, bw, t) && GuardFreeInt(allow, bw, e)
  }

  /** No overflow-capable cast is reached without passing a reader of its own. */
  predicate CastFree(bw: nat, r: RelExpr) {
    match r
    case IntToAtom(ie) => !OverflowCapable(bw, ie)
    case RBin(_, l, rr) => CastFree(bw, l) && CastFree(bw, rr)
    case RUn(_, e) => CastFree(bw, e)
    case RIte(_, t, e) => CastFree(bw, t) && CastFree(bw, e)
    case _ => true
  }

  lemma {:induction false} CastFreeCollectsNone(c: Trans, env: Env, r: RelExpr)
    requires CastFree(c.bw, r)
    ensures Casts(c, env, r) == []
  {
    match r
    case RBin(_, l, rr) => CastFreeCollectsNone(c, env, l); CastFreeCollectsNone(c, env, rr);
    case RUn(_, e) => CastFreeCollectsNone(c, env, e);
    case RIte(_, t, e) => CastFreeCollectsNone(c, env, t); CastFreeCollectsNone(c, env, e);
    case _ =>
  }

  lemma {:induction false} SteadyFormula(c: Ctx, env: Env, p: bool, fs: seq<QuantFrame>, q: bool, gs: seq<QuantFrame>, f: Formula)
    requires GuardFreeFormula(c.allow, c.tr.bw, f)
    ensures EvalFormula(c, env, p, fs, f) == EvalFormula(c, env, q, gs, f)
    decreases f, 1
  {
    match f
    case Not(g) => SteadyFormula(c, env, !p, fs, !q, gs, g);
    case And(parts) => forall k | 0 <= k < |parts| { SteadyFormula(c, env, p, fs, q, gs, parts[k]); }
    case Or(parts) => forall k | 0 <= k < |parts| { SteadyFormula(c, env, p, fs, q, gs, parts[k]); }
    case Implies(a, k) => SteadyFormula(c, env, p, fs, q, gs, a); SteadyFormula(c, env, p, fs, q, gs, k);
    case Iff(l, r) => SteadyFormula(c, env, p, fs, q, gs, l); SteadyFormula(c, env, p, fs, q, gs, r);
    case RelCompare(op, l, r) =>
      SteadyRel(c, env, p, fs, q, gs, l);
      SteadyRel(c, env, p, fs, q, gs, r);
      if !c.allow { CastFreeCollectsNone(c.tr, env, l); CastFreeCollectsNone(c.tr, env, r); }
    case IntCompare(_, l, r) =>
      SteadyInt(c, env, p, fs, q, gs, l);
      SteadyInt(c, env, p, fs, q, gs, r);
    case MultTest(_, e) =>
      SteadyRel(c, env, p, fs, q, gs, e);
      if !c.allow { CastFreeCollectsNone(c.tr, env, e); }
    case Quant(_, _, _, _) => SteadyQuant(c, env, p, fs, q, gs, f);
    case _ =>
  }

  lemma {:induction false} SteadyQuant(c: Ctx, env: Env, p: bool, fs: seq<QuantFrame>, q: bool, gs: seq<QuantFrame>, f: Formula)
    requires f.Quant? && GuardFreeFormula(c.allow, c.tr.bw, f)
    ensures EvalFormula(c, env, p, fs, f) == EvalFormula(c, env, q, gs, f)
    decreases f, 0
  {
    hide EvalRel;
    SteadyRel(c, env, p, fs, q, gs, f.bound);
    var inner, inner' := fs + [Frame(c, p, f.kind, f.v, f.bound)], gs + [Frame(c, q, f.kind, f.v, f.bound)];
    forall t | t in EvalRel(c, env, p, fs, f.bound)
      ensures EvalFormula(c, env[f.v := t], p, inner, f.body) == EvalFormula(c, env[f.v := t], q, inner', f.body)
    {
      SteadyFormula(c, env[f.v := t], p, inner, q, inner', f.body);
    }
  }

  lemma {:induction false} SteadyRel(c: Ctx, env: Env, p: bool, fs: seq<QuantFrame>, q: bool, gs: seq<QuantFrame>, r: RelExpr)
    requires GuardFreeRel(c.allow, c.tr.bw, r)
    ensures EvalRel(c, env, p, fs, r) == EvalRel(c, env, q, gs, r)
    decreases r, 1
  {
    hide EvalFormula, EvalInt;
    match r
    case RBin(_, l, rr) => SteadyRel(c, env, p, fs, q, gs, l); SteadyRel(c, env, p, fs, q, gs, rr);
    case RUn(_, e) => SteadyRel(c, env, p, fs, q, gs, e);
    case RIte(cond, t, e) =>
      SteadyFormula(c, env, p, fs, q, gs, cond);
      SteadyRel(c, env, p, fs, q, gs, t);
      SteadyRel(c, env, p, fs, q, gs, e);
    case Comprehension(_, _) => SteadyDecls(c, env, p, fs, q, gs, r, 0, []);
    case IntToAtom(ie) => SteadyInt(c, env, p, fs, q, gs, ie);
    case _ =>
  }

  lemma {:induction false} SteadyDecls(c: Ctx, env: Env, p: bool, fs: seq<QuantFrame>, q: bool, gs: seq<QuantFrame>, r: RelExpr, k: nat, prefix: Tuple)
    requires r.Comprehension? && k <= |r.decls| && GuardFreeRel(c.allow, c.tr.bw, r)
    ensures EvalDecls(c, env, p, fs, r, k, prefix) == EvalDecls(c, env, q, gs, r, k, prefix)
    decreases r, 0, |r.decls| - k
  {
    hide EvalFormula, EvalRel;
    if k == |r.decls| {
      SteadyFormula(c, env, p, fs, q, gs, r.body);
    } else {
      var d := r.decls[k];
      SteadyRel(c, env, p, fs, q, gs, d.bound);
      forall t
        ensures EvalBinding(c, env, p, fs, r, k, prefix, t) == EvalBinding(c, env, q, gs, r, k, prefix, t)
      {
        SteadyDecls(c, env[d.v := t], p, fs, q, gs, r, k + 1, prefix + t);
      }
      forall u
        ensures u in EvalDecls(c, env, p, fs, r, k, prefix) <==> u in EvalDecls(c, env, q, gs, r, k, prefix)
      {
        InDecls(c, env, p, fs, r, k, prefix, u);
        InDecls(c, env, q, gs, r, k, prefix, u);
      }
    }
  }

  lemma {:induction false} SteadyInt(c: Ctx, env: Env, p: bool, fs: seq<QuantFrame>, q: bool, gs: seq<QuantFrame>, i: IntExpr)
    requires GuardFreeInt(c.allow, c.tr.bw, i)
    ensures EvalInt(c, env, p, fs, i) == EvalInt(c, env, q, gs, i)
    decreases i, 1
  {
    hide EvalFormula, EvalRel;
    match i
    case Card(r) => SteadyCard(c, env, p, fs, q, gs, i, r);
    case AtomToInt(r) => SteadyRel(c, env, p, fs, q, gs, r);
    case Neg(j) => SteadyInt(c, env, p, fs, q, gs, j);
    case IBin(_, l, r) => SteadyInt(c, env, p, fs, q, gs, l); SteadyInt(c, env, p, fs, q, gs, r);
    case Sum(v, bound, body) =>
      SteadyRel(c, env, p, fs, q, gs, bound);
      SteadySum(c, env, p, fs, q, gs, i, Sorted(EvalRel(c, env, p, fs, bound)), (0, false));
    case IIte(cond, t, e) =>
      SteadyFormula(c, env, p, fs, q, gs, cond);
      SteadyInt(c, env, p, fs, q, gs, t);
      SteadyInt(c, env, p, fs, q, gs, e);
    case _ =>
  }

  lemma {:induction false} SteadyCard(c: Ctx, env: Env, p: bool, fs: seq<QuantFrame>, q: bool, gs: seq<QuantFrame>, i: IntExpr, r: RelExpr)
    requires i == Card(r) && GuardFreeRel(c.allow, c.tr.bw, r)
    ensures EvalInt(c, env, p, fs, i) == EvalInt(c, env, q, gs, i)
    decreases i, 0, 1
  {
    hide EvalFormula, EvalRel;
    SteadyRel(c, env, p, fs, q, gs, r);
    GuardFreeCasts(c.allow, c.tr, env, r);
    SteadyCasts(c, env, p, fs, q, gs, i, Casts(c.tr, env, r));
  }

  lemma {:induction false} GuardFreeCasts(allow: bool, c: Trans, env: Env, r: RelExpr)
    requires GuardFreeRel(allow, c.bw, r)
    ensures forall ie | ie in Casts(c, env, r) :: GuardFreeInt(allow, c.bw, ie)
  {
    match r
    case RBin(_, l, rr) => GuardFreeCasts(allow, c, env, l); GuardFreeCasts(allow, c, env, rr);
    case RUn(_, e) => GuardFreeCasts(allow, c, env, e);
    case RIte(_, t, e) => GuardFreeCasts(allow, c, env, t); GuardFreeCasts(allow, c, env, e);
    case _ =>
  }

  lemma {:induction false} SteadyCasts(c: Ctx, env: Env, p: bool, fs: seq<QuantFrame>, q: bool, gs: seq<QuantFrame>, owner: IntExpr, casts: seq<IntExpr>)
    requires forall ie | ie in casts :: (owner decreases to ie) && GuardFreeInt(c.allow, c.tr.bw, ie)
    ensures AnyOverflow(c, env, p, fs, owner, casts) == AnyOverflow(c, env, q, gs, owner, casts)
    decreases owner, 0, 0, |casts|
  {
    hide EvalInt;
    if casts != [] {
      assert casts[0] in casts && forall ie | ie in casts[1..] :: ie in casts;
      SteadyInt(c, env, p, fs, q, gs, casts[0]);
      SteadyCasts(c, env, p, fs, q, gs, owner, casts[1..]);
    }
  }

  lemma {:induction false} SteadySum(c: Ctx, env: Env, p: bool, fs: seq<QuantFrame>, q: bool, gs: seq<QuantFrame>, i: IntExpr, ts: seq<Tuple>, acc: Flagged)
    requires i.Sum? && GuardFreeInt(c.allow, c.tr.bw, i)
    ensures EvalSum(c, env, p, fs, i, ts, acc) == EvalSum(c, env, q, gs, i, ts, acc)
    decreases i, 0, |ts|
  {
    hide EvalFormula, EvalRel, EvalInt;
    if ts != [] {
      SteadyInt(c, env[i.v := ts[0]], p, fs, q, gs, i.body);
      var x := EvalInt(c, env[i.v := ts[0]], p, fs, i.body);
      SteadySum(c, env, p, fs, q, gs, i, ts[1..], AddFlagged(acc, x, c.tr.bw));
    }
  }

  // Allowing overflow makes everything guard-free.

  lemma {:induction false} AllowedFormula(bw: nat, f: Formula)
    ensures GuardFreeFormula(true, bw, f)
  {
    match f
    case Not(g) => AllowedFormula(bw, g);
    case And(parts) => forall k | 0 <= k < |parts| { AllowedFormula(bw, parts[k]); }
    case Or(parts) => forall k | 0 <= k < |parts| { AllowedFormula(bw, parts[k]); }
    case Implies(a, k) => AllowedFormula(bw, a); AllowedFormula(bw, k);
    case Iff(l, r) => AllowedFormula(bw, l); AllowedFormula(bw, r);
    case RelCompare(_, l, r) => AllowedRel(bw, l); AllowedRel(bw, r);
    case IntCompare(_, l, r) => AllowedInt(bw, l); AllowedInt(bw, r);
    case MultTest(_, e) => AllowedRel(bw, e);
    case Quant(_, _, bound, body) => AllowedRel(bw, bound); AllowedFormula(bw, body);
    case _ =>
  }

  lemma {:induction false} AllowedRel(bw: nat, r: RelExpr)
    ensures GuardFreeRel(true, bw, r)
  {
    match r
    case RBin(_, l, rr) => AllowedRel(bw, l); AllowedRel(bw, rr);
    case RUn(_, e) => AllowedRel(bw, e);
    case RIte(cond, t, e) => AllowedFormula(bw, cond); AllowedRel(bw, t); AllowedRel(bw, e);
    case Comprehension(decls, body) =>
      forall k | 0 <= k < |decls| { AllowedRel(bw, decls[k].bound); }
      AllowedFormula(bw, body);
    case IntToAtom(ie) => AllowedInt(bw, ie);
    case _ =>
  }

  lemma {:induction false} AllowedInt(bw: nat, i: IntExpr)
    ensures GuardFreeInt(true, bw, i)
  {
    match i
    case Card(r) => AllowedRel(bw, r);
    case AtomToInt(r) => AllowedRel(bw, r);
    case Neg(j) => AllowedInt(bw, j);
    case IBin(_, l, r) => AllowedInt(bw, l); AllowedInt(bw, r);
    case Sum(_, bound, body) => AllowedRel(bw, bound); AllowedInt(bw, body);
    case IIte(cond, t, e) => AllowedFormula(bw, cond); AllowedInt(bw, t); AllowedInt(bw, e);
    case _ =>
  }

  // ------------------------------------------------------------------ the normal form

  function Complement(op: IntCmpOp): IntCmpOp {
    match op
    case Eq => Eq
    case Lt => Ge
    case Ge => Lt
    case Gt => Le
    case Le => Gt
  }

  /** Pushes a negation through `not`, `and`, `or`, quantifiers and ordered integer comparisons. Every
      other node keeps its own negation. */
  function Nnf(f: Formula, negated: bool): Formula {
    match f
    case Not(g) => Nnf(g, !negated)
    case And(parts) =>
      var moved := seq(|parts|, k requires 0 <= k < |parts| => Nnf(parts[k], negated));
      if negated then Or(moved) else And(moved)
    case Or(parts) =>
      var moved := seq(|parts|, k requires 0 <= k < |parts| => Nnf(parts[k], negated));
      if negated then And(moved) else Or(moved)
    case Quant(kind, v, bound, body) =>
      Quant(if !negated then kind else if kind == QAll then QSome else QAll, v, bound, Nnf(body, negated))
    case IntCompare(op, l, r) =>
      if negated && op != Eq then IntCompare(Complement(op), l, r) else if negated then Not(f) else f
    case _ => if negated then Not(f) else f
  }

  /** Where a negation crosses a bound or an ordered comparison's operands, no guard fires inside them. */
  predicate Crossable(allow: bool, bw: nat, f: Formula, negated: bool) {
    match f
    case Not(g) => Crossable(allow, bw, g, !negated)
    case And(parts) => forall k | 0 <= k < |parts| :: Crossable(allow, bw, parts[k], negated)
    case Or(parts) => forall k | 0 <= k < |parts| :: Crossable(allow, bw, parts[k], negated)
    case Quant(_, _, bound, body) => (negated ==> GuardFreeRel(allow, bw, bound)) && Crossable(allow, bw, body, negated)
    case IntCompare(op, l, r) => negated && op != Eq ==> GuardFreeInt(allow, bw, l) && GuardFreeInt(allow, bw, r)
    case _ => true
  }

  /** Allowing overflow, a negation may cross anything. */
  lemma {:induction false} AllowedCrossable(bw: nat, f: Formula, negated: bool)
    ensures Crossable(true, bw, f, negated)
  {
    match f
    case Not(g) => AllowedCrossable(bw, g, !negated);
    case And(parts) => forall k | 0 <= k < |parts| { AllowedCrossable(bw, parts[k], negated); }
    case Or(parts) => forall k | 0 <= k < |parts| { AllowedCrossable(bw, parts[k], negated); }
    case Quant(_, _, bound, body) => AllowedRel(bw, bound); AllowedCrossable(bw, body, negated);
    case IntCompare(_, l, r) => AllowedInt(bw, l); AllowedInt(bw, r);
    case _ =>
  }

  /** The verdict does not change, whatever the enclosing quantifiers and whichever operand overflows. */
  lemma {:induction false} NnfPreserves(c: Ctx, env: Env, pol: bool, frames: seq<QuantFrame>, f: Formula, negated: bool)
    requires Crossable(c.allow, c.tr.bw, f, negated)
    ensures EvalFormula(c, env, pol, frames, Nnf(f, negated))
         == EvalFormula(c, env, pol, frames, if negated then Not(f) else f)
    decreases f
  {
    hide EvalInt;
    match f
    case Not(g) => NnfPreserves(c, env, pol, frames, g, !negated);
    case And(parts) =>
      forall k | 0 <= k < |parts| { NnfPreserves(c, env, pol, frames, parts[k], negated); }
      PartsPreserved(c, env, pol, frames, f, parts, negated);
    case Or(parts) =>
      forall k | 0 <= k < |parts| { NnfPreserves(c, env, pol, frames, parts[k], negated); }
      PartsPreserved(c, env, pol, frames, f, parts, negated);
    case Quant(kind, v, bound, body) => QuantPreserved(c, env, pol, frames, f, negated);
    case IntCompare(op, l, r) => ComparePreserved(c, env, pol, frames, op, l, r, negated);
    case _ =>
  }

  /** Negating an ordered comparison and taking its complement agree, guard included. */
  lemma ComparePreserved(c: Ctx, env: Env, pol: bool, frames: seq<QuantFrame>, op: IntCmpOp, l: IntExpr, r: IntExpr, negated: bool)
    requires negated && op != Eq ==> GuardFreeInt(c.allow, c.tr.bw, l) && GuardFreeInt(c.allow, c.tr.bw, r)
    ensures EvalFormula(c, env, pol, frames, Nnf(IntCompare(op, l, r), negated))
         == EvalFormula(c, env, pol, frames, if negated then Not(IntCompare(op, l, r)) else IntCompare(op, l, r))
  {
    hide EvalRel, EvalInt;
    if negated && op != Eq {
      SteadyInt(c, env, pol, frames, !pol, frames, l);
      SteadyInt(c, env, pol, frames, !pol, frames, r);
      var x, y := EvalInt(c, env, pol, frames, l), EvalInt(c, env, pol, frames, r);
      CompareUnfolds(c, env, pol, frames, Complement(op), l, r);
      CompareUnfolds(c, env, !pol, frames, op, l, r);
      ComplementVerdict(c.allow, pol, frames, op, l, x, r, y);
      assert Nnf(IntCompare(op, l, r), true) == IntCompare(Complement(op), l, r);
      assert EvalFormula(c, env, pol, frames, Not(IntCompare(op, l, r))) == !EvalFormula(c, env, !pol, frames, IntCompare(op, l, r));
    } else {
      assert Nnf(IntCompare(op, l, r), negated) == if negated then Not(IntCompare(op, l, r)) else IntCompare(op, l, r);
    }
  }

  lemma CompareUnfolds(c: Ctx, env: Env, pol: bool, frames: seq<QuantFrame>, op: IntCmpOp, l: IntExpr, r: IntExpr)
    ensures EvalFormula(c, env, pol, frames, IntCompare(op, l, r)) ==
            CompareVerdict(c.allow, pol, frames, op, l, EvalInt(c, env, pol, frames, l), r, EvalInt(c, env, pol, frames, r))
  {
  }

  /** The guard forces the complement's atom exactly the other way at the other polarity. */
  lemma ComplementVerdict(allow: bool, pol: bool, frames: seq<QuantFrame>, op: IntCmpOp, l: IntExpr, x: Flagged, r: IntExpr, y: Flagged)
    requires op != Eq
    ensures CompareVerdict(allow, pol, frames, Complement(op), l, x, r, y) == !CompareVerdict(allow, !pol, frames, op, l, x, r, y)
  {
  }

  lemma PartsPreserved(c: Ctx, env: Env, pol: bool, frames: seq<QuantFrame>, f: Formula, parts: seq<Formula>, negated: bool)
    requires f == And(parts) || f == Or(parts)
    requires forall k | 0 <= k < |parts| ::
               EvalFormula(c, env, pol, frames, Nnf(parts[k], negated)) ==
               EvalFormula(c, env, pol, frames, if negated then Not(parts[k]) else parts[k])
    ensures EvalFormula(c, env, pol, frames, Nnf(f, negated))
         == EvalFormula(c, env, pol, frames, if negated then Not(f) else f)
  {
    var moved := Nnf(f, negated).parts;
    assert |moved| == |parts| && forall k | 0 <= k < |parts| :: moved[k] == Nnf(parts[k], negated);
    if negated {
      forall k | 0 <= k < |parts|
        ensures EvalFormula(c, env, pol, frames, moved[k]) == !EvalFormula(c, env, !pol, frames, parts[k])
      {}
    } else {
      forall k | 0 <= k < |parts|
        ensures EvalFormula(c, env, pol, frames, moved[k]) == EvalFormula(c, env, pol, frames, parts[k])
      {}
    }
  }

  lemma {:induction false} QuantPreserved(c: Ctx, env: Env, pol: bool, frames: seq<QuantFrame>, f: Formula, negated: bool)
    requires f.Quant? && Crossable(c.allow, c.tr.bw, f, negated)
    ensures EvalFormula(c, env, pol, frames, Nnf(f, negated))
         == EvalFormula(c, env, pol, frames, if negated then Not(f) else f)
    decreases f, 0
  {
    var moved := Nnf(f, negated);
    var range := EvalRel(c, env, pol, frames, f.bound);
    var inner := frames + [Frame(c, pol, moved.kind, f.v, f.bound)];
    if negated {
      SteadyRel(c, env, pol, frames, !pol, frames, f.bound);
      assert inner == frames + [Frame(c, !pol, f.kind, f.v, f.bound)];
      forall t | t in range
        ensures EvalFormula(c, env[f.v := t], pol, inner, moved.body) == !EvalFormula(c, env[f.v := t], !pol, inner, f.body)
      {
        NnfPreserves(c, env[f.v := t], pol, inner, f.body, negated);
      }
    } else {
      forall t | t in range
        ensures EvalFormula(c, env[f.v := t], pol, inner, moved.body) == EvalFormula(c, env[f.v := t], pol, inner, f.body)
      {
        NnfPreserves(c, env[f.v := t], pol, inner, f.body, negated);
      }
    }
  }

  // ------------------------------------------------------------------ where the rewriting stops

  /** A quantifier's verdict at a polarity, over a given range. */
  ghost predicate QuantOver(c: Ctx, env: Env, pol: bool, frames: seq<QuantFrame>, f: Formula, range: TupleSet)
    requires f.Quant?
  {
    var inner := frames + [Frame(c, pol, f.kind, f.v, f.bound)];
    if f.kind == QAll
    then forall t | t in range :: EvalFormula(c, env[f.v := t], pol, inner, f.body)
    else exists t | t in range :: EvalFormula(c, env[f.v := t], pol, inner, f.body)
  }

  /** Pushing a negation across a quantifier keeps the verdict exactly when the quantifier does not see
      which polarity its bound is read at. */
  lemma CrossedQuantExact(c: Ctx, env: Env, pol: bool, frames: seq<QuantFrame>, f: Formula)
    requires f.Quant? && Crossable(c.allow, c.tr.bw, f.body, true)
    ensures (EvalFormula(c, env, pol, frames, Nnf(f, true)) == EvalFormula(c, env, pol, frames, Not(f)))
            <==> (QuantOver(c, env, !pol, frames, f, EvalRel(c, env, pol, frames, f.bound))
                  == QuantOver(c, env, !pol, frames, f, EvalRel(c, env, !pol, frames, f.bound)))
  {
    hide EvalRel;
    var moved, here, there := Nnf(f, true), EvalRel(c, env, pol, frames, f.bound), EvalRel(c, env, !pol, frames, f.bound);
    var inner := frames + [Frame(c, pol, moved.kind, f.v, f.bound)];
    assert inner == frames + [Frame(c, !pol, f.kind, f.v, f.bound)];
    forall t | t in here
      ensures EvalFormula(c, env[f.v := t], pol, inner, moved.body) == !EvalFormula(c, env[f.v := t], !pol, inner, f.body)
    {
      NnfPreserves(c, env[f.v := t], pol, inner, f.body, true);
    }
    assert EvalFormula(c, env, pol, frames, moved) == !QuantOver(c, env, !pol, frames, f, here);
    assert EvalFormula(c, env, pol, frames, Not(f)) == !QuantOver(c, env, !pol, frames, f, there);
  }

  /** Complementing an ordered comparison keeps the verdict exactly when the comparison does not see which
      polarity its operands are read at. */
  lemma CrossedCompareExact(c: Ctx, env: Env, pol: bool, frames: seq<QuantFrame>, op: IntCmpOp, l: IntExpr, r: IntExpr)
    requires op != Eq
    ensures (EvalFormula(c, env, pol, frames, Nnf(IntCompare(op, l, r), true)) == EvalFormula(c, env, pol, frames, Not(IntCompare(op, l, r))))
            <==> (CompareVerdict(c.allow, !pol, frames, op, l, EvalInt(c, env, pol, frames, l), r, EvalInt(c, env, pol, frames, r))
                  == CompareVerdict(c.allow, !pol, frames, op, l, EvalInt(c, env, !pol, frames, l), r, EvalInt(c, env, !pol, frames, r)))
  {
    hide EvalRel, EvalInt;
    var x, y := EvalInt(c, env, pol, frames, l), EvalInt(c, env, pol, frames, r);
    CompareUnfolds(c, env, pol, frames, Complement(op), l, r);
    CompareUnfolds(c, env, !pol, frames, op, l, r);
    ComplementVerdict(c.allow, pol, frames, op, l, x, r, y);
    assert Nnf(IntCompare(op, l, r), true) == IntCompare(Complement(op), l, r);
  }

  /** `n = 0` for a literal outside the bitwidth. */
  function OverflowingTest(n: int): Formula {
    IntCompare(Eq, IConst(n), IConst(0))
  }

  lemma {:induction false} ClosedOperandExcludes(frames: seq<QuantFrame>)
    ensures !Classify(frames, {})
  {
    if frames != [] {
      ClosedOperandExcludes(frames[..|frames| - 1]);
    }
  }

  /** A closed overflowing comparison is excluded: false where it is asserted, true under a negation. */
  lemma OverflowingTestValue(c: Ctx, env: Env, pol: bool, frames: seq<QuantFrame>, n: int)
    requires WellFormed(c) && !c.allow && ConstOverflows(n, c.tr.bw)
    ensures EvalFormula(c, env, pol, frames, OverflowingTest(n)) == !pol
  {
    hide EvalFormula, EvalRel;
    ClosedOperandExcludes(frames);
    assert InRange(0, c.tr.bw);
    CompareUnfolds(c, env, pol, frames, Eq, IConst(n), IConst(0));
  }

  /** A negation may not cross a bound a guard fires in: the bound is read at the other polarity, and its
      value changes. */
  lemma CrossedBoundChanges(c: Ctx, env: Env, frames: seq<QuantFrame>, n: int, v: VarId, w: VarId)
    requires WellFormed(c) && !c.allow && ConstOverflows(n, c.tr.bw)
    ensures
      var bound := Comprehension([CompDecl(v, RConst(CUniv))], OverflowingTest(n));
      var f := Quant(QSome, w, bound, Const(true));
      && !Crossable(c.allow, c.tr.bw, f, true)
      && EvalFormula(c, env, true, frames, Nnf(f, true))
      && !EvalFormula(c, env, true, frames, Not(f))
  {
    var bound := Comprehension([CompDecl(v, RConst(CUniv))], OverflowingTest(n));
    assert !GuardFreeFormula(c.allow, c.tr.bw, OverflowingTest(n));
    assert !GuardFreeRel(c.allow, c.tr.bw, bound);
    assert [0] in UnivSet(c.tr.univ);
    FilteredUniv(c, env, true, frames, n, v);
    FilteredUniv(c, env, false, frames, n, v);
    assert [0] in EvalRel(c, env, false, frames, bound);
    assert EvalFormula(c, env, false, frames, Quant(QSome, w, bound, Const(true))) by {
      assert EvalFormula(c, env[w := [0]], false, frames + [Frame(c, false, QSome, w, bound)], Const(true));
    }
  }

  lemma FilteredUniv(c: Ctx, env: Env, pol: bool, frames: seq<QuantFrame>, n: int, v: VarId)
    requires WellFormed(c) && !c.allow && ConstOverflows(n, c.tr.bw)
    ensures EvalRel(c, env, pol, frames, Comprehension([CompDecl(v, RConst(CUniv))], OverflowingTest(n)))
         == if pol then {} else UnivSet(c.tr.univ)
  {
    hide EvalFormula, EvalInt;
    var bound := Comprehension([CompDecl(v, RConst(CUniv))], OverflowingTest(n));
    var value := EvalDecls(c, env, pol, frames, bound, 0, []);
    forall t
      ensures EvalBinding(c, env, pol, frames, bound, 0, [], t) == if pol then {} else {t}
    {
      OverflowingTestValue(c, env[v := t], pol, frames, n);
      assert [] + t == t;
    }
    forall u
      ensures u in value <==> !pol && u in UnivSet(c.tr.univ)
    {
      InDecls(c, env, pol, frames, bound, 0, [], u);
      assert EvalRel(c, env, pol, frames, bound.decls[0].bound) == UnivSet(c.tr.univ);
    }
  }

  /** An implication is not its disjunction: the antecedent keeps the implication's own polarity, and
      the disjunction's negated antecedent does not. They agree exactly when the consequent holds or
      the antecedent reads the same at both polarities. */
  lemma ImplicationRewriteExact(c: Ctx, env: Env, pol: bool, frames: seq<QuantFrame>, a: Formula, k: Formula)
    ensures EvalFormula(c, env, pol, frames, Implies(a, k)) == EvalFormula(c, env, pol, frames, Or([Not(a), k]))
       <==> (EvalFormula(c, env, pol, frames, k)
             || EvalFormula(c, env, pol, frames, a) == EvalFormula(c, env, !pol, frames, a))
  {
    hide EvalRel;
    var parts := [Not(a), k];
    assert parts[0] == Not(a) && parts[1] == k;
    assert EvalFormula(c, env, pol, frames, Or(parts))
      <==> EvalFormula(c, env, pol, frames, parts[0]) || EvalFormula(c, env, pol, frames, parts[1]);
  }

  lemma ImplicationRewriteFails(c: Ctx, env: Env, frames: seq<QuantFrame>, n: int)
    requires WellFormed(c) && !c.allow && ConstOverflows(n, c.tr.bw)
    ensures EvalFormula(c, env, true, frames, Implies(OverflowingTest(n), Const(false)))
    ensures !EvalFormula(c, env, true, frames, Or([Not(OverflowingTest(n)), Const(false)]))
  {
    hide EvalRel;
    OverflowingTestValue(c, env, true, frames, n);
    OverflowingTestValue(c, env, false, frames, n);
    ImplicationRewriteExact(c, env, true, frames, OverflowingTest(n), Const(false));
  }
}
