/** What the folder decides (crates/als-core/src/overflow_guard.rs), told by values: the folder answers
    exactly where the evaluator's answer rests on constants, and then, being sound, with that answer. */
module FolderDecides {
  import opened Wrappers
  import opened Algebra
  import opened LexOrder
  import opened Arithmetic
  import opened Ir
  import opened Folder
  import opened Semantics
  import opened FolderSoundness
  import opened Typing

  // ------------------------------------------------------------------ resting on constants

  /** Whether an operator's emptiness follows from what is known of its operands: each is firm or not, and
      empty or not. */
  predicate BinaryFirm(op: RelBinOp, lFirm: bool, lNone: bool, rFirm: bool, rNone: bool, same: bool) {
    match op
    case Union => (lFirm && rFirm) || (lFirm && !lNone) || (rFirm && !rNone)
    case OverrideOp => rFirm && (lFirm || !rNone)
    case ProductOp => (lFirm && rFirm) || (lFirm && lNone) || (rFirm && rNone)
    case Intersect => (lFirm && lNone) || (rFirm && rNone)
    case JoinOp => (lFirm && lNone) || (rFirm && rNone)
    case Diff => same || (lFirm && (lNone || (rFirm && rNone)))
  }

  /** The expression's emptiness rests on constants: literals, bound variables, relations their bounds
      settle, casts of firm integers. */
  ghost predicate FirmRel(c: Ctx, env: Env, pol: bool, frames: seq<QuantFrame>, r: RelExpr)
    decreases r, 1, 0
  {
    match r
    case RConst(_) => true
    case Var(v) => v in env
    case Relation(rel) => rel in c.tr.bounds && (c.tr.bounds[rel].lower != {} || c.tr.bounds[rel].upper == {})
    case IntToAtom(ie) => FirmInt(c, env, pol, frames, ie)
    case RBin(op, l, rr) =>
      BinaryFirm(op, FirmRel(c, env, pol, frames, l), EvalRel(c, env, pol, frames, l) == {},
                 FirmRel(c, env, pol, frames, rr), EvalRel(c, env, pol, frames, rr) == {}, SameExpr(l, rr))
    case RUn(op, e) => op != ReflexiveClosure && FirmRel(c, env, pol, frames, e)
    case RIte(cond, t, e) =>
      if FirmFormula(c, env, pol, frames, cond)
      then (if EvalFormula(c, env, pol, frames, cond) then FirmRel(c, env, pol, frames, t) else FirmRel(c, env, pol, frames, e))
      else
        && FirmRel(c, env, pol, frames, t) && EvalRel(c, env, pol, frames, t) == {}
        && FirmRel(c, env, pol, frames, e) && EvalRel(c, env, pol, frames, e) == {}
    case Comprehension(_, _) => false
  }

  /** Every value of the set is a constant. */
  ghost predicate ExactSet(c: Ctx, env: Env, pol: bool, frames: seq<QuantFrame>, r: RelExpr)
    decreases r, 1, 1
  {
    match r
    case RConst(k) => k == CNone
    case Var(v) => v in env
    case Relation(rel) => rel in c.tr.bounds && c.tr.bounds[rel].lower == c.tr.bounds[rel].upper
    case IntToAtom(ie) => FirmInt(c, env, pol, frames, ie)
    case _ => false
  }

  /** Read in order, the casts are firm up to the first that overflows. */
  ghost predicate FirmCasts(c: Ctx, env: Env, pol: bool, frames: seq<QuantFrame>, owner: IntExpr, casts: seq<IntExpr>)
    requires forall ie | ie in casts :: (owner decreases to ie)
    decreases owner, 0, |casts|
  {
    casts == [] ||
    (assert casts[0] in casts && forall ie | ie in casts[1..] :: ie in casts;
     && FirmInt(c, env, pol, frames, casts[0])
     && (EvalInt(c, env, pol, frames, casts[0]).1 || FirmCasts(c, env, pol, frames, owner, casts[1..])))
  }

  /** The integer's value and flag rest on constants. */
  ghost predicate FirmInt(c: Ctx, env: Env, pol: bool, frames: seq<QuantFrame>, i: IntExpr)
    decreases i, 1, 0
  {
    match i
    case IConst(_) => true
    case Card(r) =>
      && ((FirmRel(c, env, pol, frames, r) && EvalRel(c, env, pol, frames, r) == {})
          || (!r.RConst? && ExactSet(c, env, pol, frames, r)))
      && (|EvalRel(c, env, pol, frames, r)| > IntMax(c.tr.bw)
          || FirmCasts(c, env, pol, frames, i, Casts(c.tr, env, r)))
    case AtomToInt(r) => ExactSet(c, env, pol, frames, r)
    case Neg(j) => FirmInt(c, env, pol, frames, j)
    case IBin(_, l, r) => FirmInt(c, env, pol, frames, l) && FirmInt(c, env, pol, frames, r)
    case Sum(_, _, _) => false
    case IIte(cond, t, e) =>
      && FirmFormula(c, env, pol, frames, cond)
      && if EvalFormula(c, env, pol, frames, cond) then FirmInt(c, env, pol, frames, t) else FirmInt(c, env, pol, frames, e)
  }

  /** The formula's truth rests on constants. A comparison whose operand overflows does not: the guard
      decides it by the enclosing binders. */
  ghost predicate FirmFormula(c: Ctx, env: Env, pol: bool, frames: seq<QuantFrame>, f: Formula)
    decreases f, 1, 0
  {
    match f
    case Const(_) => true
    case Not(g) => FirmFormula(c, env, !pol, frames, g)
    case And(parts) =>
      || (forall p | p in parts :: FirmFormula(c, env, pol, frames, p))
      || (exists p | p in parts :: FirmFormula(c, env, pol, frames, p) && !EvalFormula(c, env, pol, frames, p))
    case Or(parts) =>
      || (forall p | p in parts :: FirmFormula(c, env, pol, frames, p))
      || (exists p | p in parts :: FirmFormula(c, env, pol, frames, p) && EvalFormula(c, env, pol, frames, p))
    case Implies(a, k) =>
      || (FirmFormula(c, env, pol, frames, a) && (!EvalFormula(c, env, pol, frames, a) || FirmFormula(c, env, pol, frames, k)))
      || (FirmFormula(c, env, pol, frames, k) && EvalFormula(c, env, pol, frames, k))
    case Iff(l, r) => FirmFormula(c, env, pol, frames, l) && FirmFormula(c, env, pol, frames, r)
    case IntCompare(_, l, r) =>
      && FirmInt(c, env, pol, frames, l) && !EvalInt(c, env, pol, frames, l).1
      && FirmInt(c, env, pol, frames, r) && !EvalInt(c, env, pol, frames, r).1
    case MultTest(test, e) =>
      FirmRel(c, env, pol, frames, e) && (EvalRel(c, env, pol, frames, e) == {} || test == TNo || test == TSome)
    case RelCompare(_, _, _) => false
    case Quant(_, _, _, _) => false
    case LoopIs(_) => false
  }

  // ------------------------------------------------------------------ the folder decides exactly these

  /** An emptiness is decided exactly when it rests on constants. */
  lemma {:induction false} RelDecided(g: Arities, c: Ctx, env: Env, pol: bool, frames: seq<QuantFrame>, r: RelExpr)
    requires Setting(g, c, env) && TypedRel(g, r) && SafeRel(c, env, pol, frames, r)
    ensures FirmRel(c, env, pol, frames, r) ==>
              FoldEmptiness(c.tr, env, r) == if EvalRel(c, env, pol, frames, r) == {} then Empty else NonEmpty
    ensures !FirmRel(c, env, pol, frames, r) ==> FoldEmptiness(c.tr, env, r) == Unknown
    decreases r, 1
  {
    hide EvalFormula, EvalInt, EvalRel, FoldInt, FoldFormula, FirmInt, FirmFormula, SafeFormula, SafeInt;
    RelSound(g, c, env, pol, frames, r);
    match r
    case IntToAtom(ie) => IntDecided(g, c, env, pol, frames, ie);
    case RBin(_, l, rr) =>
      RelDecided(g, c, env, pol, frames, l);
      RelDecided(g, c, env, pol, frames, rr);
    case RUn(_, e) => RelDecided(g, c, env, pol, frames, e);
    case RIte(_, _, _) => ChoiceDecided(g, c, env, pol, frames, r);
    case _ =>
  }

  lemma {:induction false} ChoiceDecided(g: Arities, c: Ctx, env: Env, pol: bool, frames: seq<QuantFrame>, r: RelExpr)
    requires r.RIte? && Setting(g, c, env) && TypedRel(g, r) && SafeRel(c, env, pol, frames, r)
    ensures FirmRel(c, env, pol, frames, r) <==> FoldEmptiness(c.tr, env, r) != Unknown
    decreases r, 0
  {
    hide EvalFormula, EvalInt, FoldInt, FoldFormula, FirmInt, FirmFormula, SafeFormula, SafeInt;
    FormulaDecided(g, c, env, pol, frames, r.cond);
    RelDecided(g, c, env, pol, frames, r.t);
    RelDecided(g, c, env, pol, frames, r.els);
  }

  /** A set's integers are read off exactly when it is constant. */
  lemma {:induction false} SetDecided(g: Arities, c: Ctx, env: Env, pol: bool, frames: seq<QuantFrame>, r: RelExpr)
    requires Setting(g, c, env) && TypedRel(g, r) && SafeRel(c, env, pol, frames, r)
    ensures FoldAtomInts(c.tr, env, r).Some? <==> ExactSet(c, env, pol, frames, r)
    decreases r, 2
  {
    hide EvalFormula, EvalInt, EvalRel, FoldInt, FirmInt, FirmFormula, SafeInt;
    if r.IntToAtom? { IntDecided(g, c, env, pol, frames, r.ie); }
  }

  lemma {:induction false} CardDecided(g: Arities, c: Ctx, env: Env, pol: bool, frames: seq<QuantFrame>, r: RelExpr)
    requires Setting(g, c, env) && TypedRel(g, r) && SafeRel(c, env, pol, frames, r)
    ensures FoldCard(c.tr, env, r).Some? <==>
            (FirmRel(c, env, pol, frames, r) && EvalRel(c, env, pol, frames, r) == {}) || (!r.RConst? && ExactSet(c, env, pol, frames, r))
    decreases r, 3
  {
    hide EvalFormula, EvalInt, EvalRel, FoldInt, FirmInt, FirmFormula, SafeInt;
    RelDecided(g, c, env, pol, frames, r);
    SetDecided(g, c, env, pol, frames, r);
  }

  lemma {:induction false} CastsDecided(c: Ctx, env: Env, pol: bool, frames: seq<QuantFrame>, owner: IntExpr, casts: seq<IntExpr>)
    requires forall ie | ie in casts :: (owner decreases to ie)
    requires forall ie | ie in casts :: FoldInt(c.tr, env, ie).Some? <==> FirmInt(c, env, pol, frames, ie)
    requires forall ie | ie in casts && FoldInt(c.tr, env, ie).Some? :: FoldInt(c.tr, env, ie).value == EvalInt(c, env, pol, frames, ie)
    ensures FoldCasts(c.tr, env, owner, casts, true).Some?
    ensures FoldCasts(c.tr, env, owner, casts, false).Some? <==> FirmCasts(c, env, pol, frames, owner, casts)
    decreases |casts|
  {
    hide EvalInt, FoldInt, FirmInt;
    if casts != [] {
      assert casts[0] in casts && forall ie | ie in casts[1..] :: ie in casts;
      CastsDecided(c, env, pol, frames, owner, casts[1..]);
    }
  }

  /** An integer is decided exactly when its value and flag rest on constants. */
  lemma {:induction false} IntDecided(g: Arities, c: Ctx, env: Env, pol: bool, frames: seq<QuantFrame>, i: IntExpr)
    requires Setting(g, c, env) && TypedInt(g, i) && SafeInt(c, env, pol, frames, i)
    ensures FoldInt(c.tr, env, i) == if FirmInt(c, env, pol, frames, i) then Some(EvalInt(c, env, pol, frames, i)) else None
    decreases i, 1
  {
    hide EvalFormula, EvalInt, EvalRel, FirmFormula, FirmRel, FoldFormula, FoldEmptiness, SafeFormula, SafeRel;
    IntSound(g, c, env, pol, frames, i);
    match i
    case Card(r) => SizeDecided(g, c, env, pol, frames, i, r);
    case AtomToInt(r) => SetDecided(g, c, env, pol, frames, r);
    case Neg(j) => IntDecided(g, c, env, pol, frames, j);
    case IBin(_, l, r) => IntDecided(g, c, env, pol, frames, l); IntDecided(g, c, env, pol, frames, r);
    case IIte(cond, t, e) =>
      FormulaDecided(g, c, env, pol, frames, cond);
      IntDecided(g, c, env, pol, frames, t);
      IntDecided(g, c, env, pol, frames, e);
    case _ =>
  }

  lemma {:induction false} SizeDecided(g: Arities, c: Ctx, env: Env, pol: bool, frames: seq<QuantFrame>, i: IntExpr, r: RelExpr)
    requires i == Card(r) && Setting(g, c, env) && TypedRel(g, r) && SafeRel(c, env, pol, frames, r)
    ensures FoldInt(c.tr, env, i).Some? <==> FirmInt(c, env, pol, frames, i)
    decreases r, 4
  {
    hide EvalFormula, EvalInt, EvalRel, FirmFormula, FirmRel, FoldFormula, FoldEmptiness, SafeFormula, SafeRel, ExactSet;
    hide FirmCasts, FoldCasts, FoldCard;
    CardDecided(g, c, env, pol, frames, r);
    FoldCardSound(g, c, env, pol, frames, r);
    SafeCasts(c, env, pol, frames, r);
    TypedCasts(g, c.tr, env, r);
    forall ie | ie in Casts(c.tr, env, r)
      ensures FoldInt(c.tr, env, ie) == if FirmInt(c, env, pol, frames, ie) then Some(EvalInt(c, env, pol, frames, ie)) else None
    {
      IntDecided(g, c, env, pol, frames, ie);
    }
    CastsDecided(c, env, pol, frames, i, Casts(c.tr, env, r));
  }

  lemma {:induction false} JunctionDecided(c: Ctx, env: Env, pol: bool, frames: seq<QuantFrame>, owner: Formula, parts: seq<Formula>, absorbing: bool, known: bool)
    requires forall p | p in parts :: (owner decreases to p)
    requires forall p | p in parts ::
      FoldFormula(c.tr, env, p) == if FirmFormula(c, env, pol, frames, p) then Some(EvalFormula(c, env, pol, frames, p)) else None
    ensures FoldJunction(c.tr, env, owner, parts, absorbing, known).Some? <==>
            || (known && forall p | p in parts :: FirmFormula(c, env, pol, frames, p))
            || (exists p | p in parts :: FirmFormula(c, env, pol, frames, p) && EvalFormula(c, env, pol, frames, p) == absorbing)
    decreases |parts|
  {
    hide EvalFormula, FoldFormula, FirmFormula;
    if parts != [] {
      assert parts[0] in parts && forall p | p in parts[1..] :: p in parts;
      assert parts == [parts[0]] + parts[1..];
      JunctionDecided(c, env, pol, frames, owner, parts[1..], absorbing, known && FirmFormula(c, env, pol, frames, parts[0]));
    }
  }

  /** A formula is decided exactly when its truth rests on constants. */
  lemma {:induction false} FormulaDecided(g: Arities, c: Ctx, env: Env, pol: bool, frames: seq<QuantFrame>, f: Formula)
    requires Setting(g, c, env) && TypedFormula(g, f) && SafeFormula(c, env, pol, frames, f)
    ensures FoldFormula(c.tr, env, f) == if FirmFormula(c, env, pol, frames, f) then Some(EvalFormula(c, env, pol, frames, f)) else None
    decreases f, 1
  {
    hide EvalFormula, EvalInt, EvalRel, FoldInt, FoldEmptiness, FirmInt, FirmRel, SafeInt, SafeRel;
    FormulaSound(g, c, env, pol, frames, f);
    match f
    case Not(h) => FormulaDecided(g, c, env, !pol, frames, h);
    case And(_) => PartsDecided(g, c, env, pol, frames, f);
    case Or(_) => PartsDecided(g, c, env, pol, frames, f);
    case Implies(a, k) => FormulaDecided(g, c, env, pol, frames, a); FormulaDecided(g, c, env, pol, frames, k);
    case Iff(l, r) => FormulaDecided(g, c, env, pol, frames, l); FormulaDecided(g, c, env, pol, frames, r);
    case IntCompare(op, l, r) => IntDecided(g, c, env, pol, frames, l); IntDecided(g, c, env, pol, frames, r);
    case MultTest(_, e) => RelDecided(g, c, env, pol, frames, e);
    case _ =>
  }

  lemma {:induction false} PartsDecided(g: Arities, c: Ctx, env: Env, pol: bool, frames: seq<QuantFrame>, f: Formula)
    requires (f.And? || f.Or?) && Setting(g, c, env) && TypedFormula(g, f) && SafeFormula(c, env, pol, frames, f)
    ensures FoldFormula(c.tr, env, f).Some? <==> FirmFormula(c, env, pol, frames, f)
    decreases f, 0
  {
    forall p | p in f.parts
      ensures FoldFormula(c.tr, env, p) == if FirmFormula(c, env, pol, frames, p) then Some(EvalFormula(c, env, pol, frames, p)) else None
    {
      FormulaDecided(g, c, env, pol, frames, p);
    }
    hide EvalFormula;
    JunctionDecided(c, env, pol, frames, f, f.parts, f.Or?, true);
  }

  // ------------------------------------------------------------------ the casts that survive

  ghost predicate FirmNone(c: Ctx, env: Env, pol: bool, frames: seq<QuantFrame>, r: RelExpr) {
    FirmRel(c, env, pol, frames, r) && EvalRel(c, env, pol, frames, r) == {}
  }

  /** The expression without what is known to contribute nothing: an empty side of a union, the empty right
      side of an override, the branch a settled condition does not take. */
  ghost function Pruned(c: Ctx, env: Env, pol: bool, frames: seq<QuantFrame>, r: RelExpr): RelExpr
    decreases r
  {
    match r
    case RBin(op, l, rr) =>
      if op == Union && FirmNone(c, env, pol, frames, l) then Pruned(c, env, pol, frames, rr)
      else if (op == Union || op == OverrideOp) && FirmNone(c, env, pol, frames, rr) then Pruned(c, env, pol, frames, l)
      else RBin(op, Pruned(c, env, pol, frames, l), Pruned(c, env, pol, frames, rr))
    case RUn(op, e) => RUn(op, Pruned(c, env, pol, frames, e))
    case RIte(cond, t, e) =>
      if FirmFormula(c, env, pol, frames, cond)
      then (if EvalFormula(c, env, pol, frames, cond) then Pruned(c, env, pol, frames, t) else Pruned(c, env, pol, frames, e))
      else RIte(cond, Pruned(c, env, pol, frames, t), Pruned(c, env, pol, frames, e))
    case _ => r
  }

  /** The capable casts among an expression's operands, left to right. */
  function Leaves(bw: nat, r: RelExpr): seq<IntExpr> {
    match r
    case IntToAtom(ie) => if OverflowCapable(bw, ie) then [ie] else []
    case RBin(_, l, rr) => Leaves(bw, l) + Leaves(bw, rr)
    case RUn(_, e) => Leaves(bw, e)
    case RIte(_, t, e) => Leaves(bw, t) + Leaves(bw, e)
    case _ => []
  }

  /** Pruning changes no value, and the guard reads every capable cast pruning leaves, in order. */
  lemma {:induction false} CastsSurvive(g: Arities, c: Ctx, env: Env, pol: bool, frames: seq<QuantFrame>, r: RelExpr)
    requires Setting(g, c, env) && TypedRel(g, r) && SafeRel(c, env, pol, frames, r)
    ensures EvalRel(c, env, pol, frames, Pruned(c, env, pol, frames, r)) == EvalRel(c, env, pol, frames, r)
    ensures Casts(c.tr, env, r) == Leaves(c.tr.bw, Pruned(c, env, pol, frames, r))
    decreases r, 1
  {
    hide EvalFormula, EvalInt, FoldInt, FoldFormula, FirmInt, FirmFormula, FirmRel, SafeFormula, SafeInt, FoldEmptiness;
    match r
    case RBin(_, _, _) => BinaryCastsSurvive(g, c, env, pol, frames, r);
    case RUn(_, e) => CastsSurvive(g, c, env, pol, frames, e);
    case RIte(cond, t, e) =>
      FormulaDecided(g, c, env, pol, frames, cond);
      CastsSurvive(g, c, env, pol, frames, t);
      CastsSurvive(g, c, env, pol, frames, e);
    case _ =>
  }

  lemma {:induction false} BinaryCastsSurvive(g: Arities, c: Ctx, env: Env, pol: bool, frames: seq<QuantFrame>, r: RelExpr)
    requires r.RBin? && Setting(g, c, env) && TypedRel(g, r) && SafeRel(c, env, pol, frames, r)
    ensures EvalRel(c, env, pol, frames, Pruned(c, env, pol, frames, r)) == EvalRel(c, env, pol, frames, r)
    ensures Casts(c.tr, env, r) == Leaves(c.tr.bw, Pruned(c, env, pol, frames, r))
    decreases r, 0
  {
    hide EvalFormula, EvalInt, FoldInt, FoldFormula, FirmInt, FirmFormula, FirmRel, SafeFormula, SafeInt, FoldEmptiness, Join, Product;
    CastsSurvive(g, c, env, pol, frames, r.l);
    CastsSurvive(g, c, env, pol, frames, r.r);
    RelDecided(g, c, env, pol, frames, r.l);
    RelDecided(g, c, env, pol, frames, r.r);
  }

  /** A multiplicity test reads them all, unless the emptiness it rests on settles it before the guard: `lone`
      and `one` on an empty set, `some` on a non-empty one; `no` never. */
  lemma TestCastsSurvive(g: Arities, c: Ctx, env: Env, pol: bool, frames: seq<QuantFrame>, test: MultTest, e: RelExpr)
    requires Setting(g, c, env) && TypedRel(g, e) && SafeRel(c, env, pol, frames, e)
    ensures TestCasts(c.tr, env, test, e)
         == if FirmRel(c, env, pol, frames, e) && test != TNo && (test == TSome) == (EvalRel(c, env, pol, frames, e) != {}) then []
            else Leaves(c.tr.bw, Pruned(c, env, pol, frames, e))
  {
    hide EvalFormula, EvalInt, EvalRel, FoldFormula, FirmInt, FirmFormula, FirmRel, FoldEmptiness, Casts, Pruned, Leaves;
    RelDecided(g, c, env, pol, frames, e);
    CastsSurvive(g, c, env, pol, frames, e);
  }
}
