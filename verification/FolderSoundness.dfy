/** The folder is sound for the evaluator: what it decides at translation time holds in every
    instance inside the bounds, under every binding of the variables, in forbid mode
    (crates/als-core/src/overflow_guard.rs against crates/als-core/src/eval.rs). Two readers need a
    side condition, and both conditions are exact. */
module FolderSoundness {
  import opened Wrappers
  import opened Algebra
  import opened Closure
  import opened LexOrder
  import opened Arithmetic
  import opened Ir
  import opened Folder
  import opened Semantics
  import opened ForbidMode
  import opened Typing

  // ------------------------------------------------------------------ the guard

  /** The verdict of the last overflowing cast, which is the one a chain of guards delivers. */
  ghost function LastPull(c: Ctx, env: Env, pol: bool, frames: seq<QuantFrame>, casts: seq<IntExpr>): Option<bool> {
    if casts == [] then None
    else
      match LastPull(c, env, pol, frames, casts[1..])
      case Some(b) => Some(b)
      case None =>
        if EvalInt(c, env, pol, frames, casts[0]).1 then Some(pol == UnderUniversal(frames, IntVars(casts[0]))) else None
  }

  /** A comparison keeps its raw answer unless a surviving cast overflows, and then the last one decides. */
  lemma {:induction false} GuardIsLastPull(c: Ctx, env: Env, pol: bool, frames: seq<QuantFrame>, owner: Formula, casts: seq<IntExpr>, atom: bool)
    requires forall ie | ie in casts :: (owner decreases to ie)
    ensures GuardCasts(c, env, pol, frames, owner, casts, atom)
         == (match LastPull(c, env, pol, frames, casts) case Some(b) => b case None => atom)
    decreases |casts|
  {
    hide EvalFormula, EvalInt, Classify, UnderUniversal;
    if casts != [] {
      assert casts[0] in casts && forall ie | ie in casts[1..] :: ie in casts;
      ClassifyInnermost(frames, IntVars(casts[0]));
      var next := Guard(pol, frames, atom, EvalInt(c, env, pol, frames, casts[0]).1, casts[0]);
      GuardIsLastPull(c, env, pol, frames, owner, casts[1..], next);
    }
  }

  // ------------------------------------------------------------------ side conditions

  /** A cast whose operand folds to an overflow must be overflow-capable. */
  ghost predicate SafeCast(c: Ctx, env: Env, ie: IntExpr) {
    OverflowCapable(c.tr.bw, ie) || !(FoldInt(c.tr, env, ie).Some? && FoldInt(c.tr, env, ie).value.1)
  }

  /** A multiplicity test that folds must not have its answer turned by a surviving cast. */
  ghost predicate SafeTest(c: Ctx, env: Env, pol: bool, frames: seq<QuantFrame>, test: MultTest, e: RelExpr) {
    var decided := FoldTest(test, FoldEmptiness(c.tr, env, e));
    decided.Some? && LastPull(c, env, pol, frames, TestCasts(c.tr, env, test, e)).Some? ==>
      LastPull(c, env, pol, frames, TestCasts(c.tr, env, test, e)) == decided
  }

  ghost predicate SafeRel(c: Ctx, env: Env, pol: bool, frames: seq<QuantFrame>, r: RelExpr)
    decreases r
  {
    match r
    case RBin(_, l, rr) => SafeRel(c, env, pol, frames, l) && SafeRel(c, env, pol, frames, rr)
    case RUn(_, e) => SafeRel(c, env, pol, frames, e)
    case RIte(cond, t, e) =>
      SafeFormula(c, env, pol, frames, cond) && SafeRel(c, env, pol, frames, t) && SafeRel(c, env, pol, frames, e)
    case IntToAtom(ie) => SafeInt(c, env, pol, frames, ie) && SafeCast(c, env, ie)
    case _ => true
  }

  ghost predicate SafeInt(c: Ctx, env: Env, pol: bool, frames: seq<QuantFrame>, i: IntExpr)
    decreases i
  {
    match i
    case Card(r) => SafeRel(c, env, pol, frames, r)
    case AtomToInt(r) => SafeRel(c, env, pol, frames, r)
    case Neg(j) => SafeInt(c, env, pol, frames, j)
    case IBin(_, l, r) => SafeInt(c, env, pol, frames, l) && SafeInt(c, env, pol, frames, r)
    case IIte(cond, t, e) =>
      SafeFormula(c, env, pol, frames, cond) && SafeInt(c, env, pol, frames, t) && SafeInt(c, env, pol, frames, e)
    case _ => true
  }

  ghost predicate SafeFormula(c: Ctx, env: Env, pol: bool, frames: seq<QuantFrame>, f: Formula)
    decreases f
  {
    match f
    case Not(g) => SafeFormula(c, env, !pol, frames, g)
    case And(parts) => forall k | 0 <= k < |parts| :: SafeFormula(c, env, pol, frames, parts[k])
    case Or(parts) => forall k | 0 <= k < |parts| :: SafeFormula(c, env, pol, frames, parts[k])
    case Implies(a, k) => SafeFormula(c, env, pol, frames, a) && SafeFormula(c, env, pol, frames, k)
    case Iff(l, r) => SafeFormula(c, env, pol, frames, l) && SafeFormula(c, env, pol, frames, r)
    case IntCompare(_, l, r) => SafeInt(c, env, pol, frames, l) && SafeInt(c, env, pol, frames, r)
    case MultTest(test, e) => SafeRel(c, env, pol, frames, e) && SafeTest(c, env, pol, frames, test, e)
    case _ => true
  }

  /** The fixed setting of the soundness statements. */
  ghost predicate Setting(g: Arities, c: Ctx, env: Env) {
    WellFormed(c) && InsideBounds(c) && !c.allow && TypedInstance(g, c) && TypedEnv(g, env)
  }

  // ------------------------------------------------------------------ integer atoms

  /** An unflagged folded value is in range. */
  lemma {:induction false} FoldedInRange(c: Trans, env: Env, i: IntExpr)
    requires c.bw >= 1 && FoldInt(c, env, i).Some? && !FoldInt(c, env, i).value.1
    ensures InRange(FoldInt(c, env, i).value.0, c.bw)
  {
    hide EvalFormula, FoldEmptiness;
    match i
    case IConst(n) => WrapLands(n, c.bw);
    case Card(r) => WrapLands(FoldCard(c, env, r).value, c.bw);
    case AtomToInt(r) => AccumulateInRange(c.bw, FoldAtomInts(c, env, r).value, (0, false));
    case Neg(j) => WrapLands(-FoldInt(c, env, j).value.0, c.bw);
    case IBin(op, l, r) =>
      FoldedInRange(c, env, l);
      FoldedInRange(c, env, r);
      FlagsAreExact(op, FoldInt(c, env, l).value.0, FoldInt(c, env, r).value.0, c.bw);
    case IIte(cond, t, e) =>
      if FoldFormula(c, env, cond).value { FoldedInRange(c, env, t); } else { FoldedInRange(c, env, e); }
  }

  lemma IntAtom(c: Ctx, v: int)
    requires WellFormed(c) && InRange(v, c.tr.bw)
    ensures IntAtomSet(c.tr, v) == {[c.tr.intStart + v + Pow2(c.tr.bw - 1)]}
    ensures AtomInts(c.tr, Sorted(IntAtomSet(c.tr, v))) == [v]
  {
    var a: Atom := c.tr.intStart + v + Pow2(c.tr.bw - 1);
    assert AtomInt(c.tr, a) == Some(v);
    assert IntAtomSet(c.tr, v) == {[a]};
    SortedSingleton([a]);
    assert [[a]][1..] == [];
  }

  lemma SortedSingleton(t: Tuple)
    ensures Sorted({t}) == [t]
  {
    var r := Sorted({t});
    assert r[0] in r;
    assert |r| == 1 && r[0] == t;
  }

  /** Outside the capable shapes a value is always in range, flagged or not. */
  lemma {:induction false} IncapableInRange(c: Ctx, env: Env, pol: bool, frames: seq<QuantFrame>, i: IntExpr)
    requires WellFormed(c) && !OverflowCapable(c.tr.bw, i)
    ensures InRange(EvalInt(c, env, pol, frames, i).0, c.tr.bw)
  {
    hide EvalFormula, EvalRel, FoldFormula, FoldInt;
    match i
    case IConst(n) => WrapLands(n, c.tr.bw);
    case AtomToInt(r) => AccumulateInRange(c.tr.bw, AtomInts(c.tr, Sorted(EvalRel(c, env, pol, frames, r))), (0, false));
    case IIte(cond, t, e) =>
      IncapableInRange(c, env, pol, frames, t);
      IncapableInRange(c, env, pol, frames, e);
    case _ =>
  }

  // ------------------------------------------------------------------ the three-sorted induction

  lemma {:induction false} SafeCasts(c: Ctx, env: Env, pol: bool, frames: seq<QuantFrame>, r: RelExpr)
    requires SafeRel(c, env, pol, frames, r)
    ensures forall ie | ie in Casts(c.tr, env, r) :: SafeInt(c, env, pol, frames, ie)
  {
    hide EvalInt, FoldInt, FoldEmptiness;
    match r
    case RBin(_, l, rr) => SafeCasts(c, env, pol, frames, l); SafeCasts(c, env, pol, frames, rr);
    case RUn(_, e) => SafeCasts(c, env, pol, frames, e);
    case RIte(_, t, e) => SafeCasts(c, env, pol, frames, t); SafeCasts(c, env, pol, frames, e);
    case _ =>
  }

  lemma {:induction false} TypedCasts(g: Arities, c: Trans, env: Env, r: RelExpr)
    requires TypedRel(g, r)
    ensures forall ie | ie in Casts(c, env, r) :: TypedInt(g, ie)
  {
    hide EvalFormula, FoldInt, FoldEmptiness;
    match r
    case RBin(_, l, rr) => TypedCasts(g, c, env, l); TypedCasts(g, c, env, rr);
    case RUn(_, e) => TypedCasts(g, c, env, e);
    case RIte(_, t, e) => TypedCasts(g, c, env, t); TypedCasts(g, c, env, e);
    case _ =>
  }

  ghost predicate Decides(e: Emptiness, a: TupleSet) {
    (e == Empty ==> a == {}) && (e == NonEmpty ==> a != {})
  }

  lemma {:induction false} SameExprEqual(c: Ctx, env: Env, pol: bool, frames: seq<QuantFrame>, a: RelExpr, b: RelExpr)
    requires SameExpr(a, b)
    ensures EvalRel(c, env, pol, frames, a) == EvalRel(c, env, pol, frames, b)
    decreases a
  {
    hide EvalFormula, EvalInt;
    if a != b {
      if a.RBin? {
        SameExprEqual(c, env, pol, frames, a.l, b.l);
        SameExprEqual(c, env, pol, frames, a.r, b.r);
      } else {
        SameExprEqual(c, env, pol, frames, a.e, b.e);
      }
    }
  }

  lemma BinaryDecides(op: RelBinOp, l: Emptiness, r: Emptiness, same: bool, a: TupleSet, b: TupleSet)
    requires Decides(l, a) && Decides(r, b) && (same ==> a == b)
    ensures Decides(BinaryEmptiness(op, l, r, same), BinValue(op, a, b))
  {
    if op == ProductOp && l == NonEmpty && r == NonEmpty {
      var t :| t in a;
      var u :| u in b;
      assert t + u in Product(a, b);
    }
    if op == OverrideOp && r == Empty && l == NonEmpty {
      var t :| t in a;
      assert Domain(b) == {};
      assert t in Override(a, b);
    }
  }

  lemma UnaryDecides(c: Ctx, op: RelUnOp, e: Emptiness, a: TupleSet)
    requires op != ReflexiveClosure && HasArity(a, 2) && Decides(e, a)
    ensures Decides(e, UnValue(c, op, a))
  {
    ClosureEmptiness(a);
    if op == TransposeOp && e == NonEmpty {
      var t :| t in a;
      assert [t[1], t[0]] in Transpose(a);
    }
  }

  /** A decided emptiness, cardinality or constant integer set is the evaluated one. */
  lemma {:induction false} RelSound(g: Arities, c: Ctx, env: Env, pol: bool, frames: seq<QuantFrame>, r: RelExpr)
    requires Setting(g, c, env) && TypedRel(g, r) && SafeRel(c, env, pol, frames, r)
    ensures Decides(FoldEmptiness(c.tr, env, r), EvalRel(c, env, pol, frames, r))
    decreases r, 1
  {
    hide EvalFormula, EvalInt, FoldInt;
    match r
    case RConst(_) => ConstantSound(c, env, pol, frames, r);
    case IntToAtom(_) => CastSound(g, c, env, pol, frames, r);
    case RBin(_, _, _) => BinarySound(g, c, env, pol, frames, r);
    case RUn(_, _) => UnarySound(g, c, env, pol, frames, r);
    case RIte(cond, t, e) =>
      FormulaSound(g, c, env, pol, frames, cond);
      RelSound(g, c, env, pol, frames, t);
      RelSound(g, c, env, pol, frames, e);
    case _ =>
  }

  lemma ConstantSound(c: Ctx, env: Env, pol: bool, frames: seq<QuantFrame>, r: RelExpr)
    requires r.RConst?
    ensures Decides(FoldEmptiness(c.tr, env, r), EvalRel(c, env, pol, frames, r))
  {
    hide EvalFormula, EvalInt, FoldFormula, FoldInt;
    if c.tr.univ > 0 {
      assert [0] in UnivSet(c.tr.univ) && [0, 0] in IdenSet(c.tr.univ);
    }
  }

  lemma {:induction false} CastSound(g: Arities, c: Ctx, env: Env, pol: bool, frames: seq<QuantFrame>, r: RelExpr)
    requires r.IntToAtom? && Setting(g, c, env) && TypedRel(g, r) && SafeRel(c, env, pol, frames, r)
    ensures Decides(FoldEmptiness(c.tr, env, r), EvalRel(c, env, pol, frames, r))
    decreases r, 0
  {
    hide EvalFormula, FoldInt, SafeFormula;
    IntSound(g, c, env, pol, frames, r.ie);
    var p := FoldInt(c.tr, env, r.ie);
    if p.Some? && !p.value.1 {
      FoldedInRange(c.tr, env, r.ie);
      IntAtom(c, p.value.0);
    }
  }

  lemma {:induction false} BinarySound(g: Arities, c: Ctx, env: Env, pol: bool, frames: seq<QuantFrame>, r: RelExpr)
    requires r.RBin? && Setting(g, c, env) && TypedRel(g, r) && SafeRel(c, env, pol, frames, r)
    ensures Decides(FoldEmptiness(c.tr, env, r), EvalRel(c, env, pol, frames, r))
    decreases r, 0
  {
    hide EvalFormula, FoldInt, SafeFormula;
    RelSound(g, c, env, pol, frames, r.l);
    RelSound(g, c, env, pol, frames, r.r);
    if SameExpr(r.l, r.r) { SameExprEqual(c, env, pol, frames, r.l, r.r); }
    BinaryDecides(r.op, FoldEmptiness(c.tr, env, r.l), FoldEmptiness(c.tr, env, r.r), SameExpr(r.l, r.r),
                  EvalRel(c, env, pol, frames, r.l), EvalRel(c, env, pol, frames, r.r));
  }

  lemma {:induction false} UnarySound(g: Arities, c: Ctx, env: Env, pol: bool, frames: seq<QuantFrame>, r: RelExpr)
    requires r.RUn? && Setting(g, c, env) && TypedRel(g, r) && SafeRel(c, env, pol, frames, r)
    ensures Decides(FoldEmptiness(c.tr, env, r), EvalRel(c, env, pol, frames, r))
    decreases r, 0
  {
    RelSound(g, c, env, pol, frames, r.e);
    RelArity(g, c, env, pol, frames, r.e);
    if r.uop != ReflexiveClosure {
      UnaryDecides(c, r.uop, FoldEmptiness(c.tr, env, r.e), EvalRel(c, env, pol, frames, r.e));
    }
  }

  /** A constant cardinality read off an expression is the evaluated one. */
  lemma {:induction false} FoldCardSound(g: Arities, c: Ctx, env: Env, pol: bool, frames: seq<QuantFrame>, r: RelExpr)
    requires Setting(g, c, env) && TypedRel(g, r) && SafeRel(c, env, pol, frames, r)
    ensures FoldCard(c.tr, env, r).Some? ==>
      FoldCard(c.tr, env, r).value == |EvalRel(c, env, pol, frames, r)|
    decreases r, 2
  {
    hide EvalFormula;
    RelSound(g, c, env, pol, frames, r);
    if r.Relation? && r.rel in c.tr.bounds && c.tr.bounds[r.rel].lower == c.tr.bounds[r.rel].upper {
      assert c.inst[r.rel] == c.tr.bounds[r.rel].lower;
    }
    if r.IntToAtom? { FoldedCast(g, c, env, pol, frames, r.ie); }
  }

  /** A cast whose operand folds without overflow is the one atom of the folded value. */
  lemma {:induction false} FoldedCast(g: Arities, c: Ctx, env: Env, pol: bool, frames: seq<QuantFrame>, ie: IntExpr)
    requires Setting(g, c, env) && TypedInt(g, ie) && SafeInt(c, env, pol, frames, ie)
    ensures var p := FoldInt(c.tr, env, ie);
      p.Some? && !p.value.1 ==>
        && |EvalRel(c, env, pol, frames, IntToAtom(ie))| == 1
        && AtomInts(c.tr, Sorted(EvalRel(c, env, pol, frames, IntToAtom(ie)))) == [p.value.0]
    decreases ie, 1
  {
    hide EvalFormula;
    IntSound(g, c, env, pol, frames, ie);
    hide EvalInt, FoldInt, EvalFormula, AtomInt, Pow2;
    var p := FoldInt(c.tr, env, ie);
    if p.Some? && !p.value.1 {
      FoldedInRange(c.tr, env, ie);
      IntAtom(c, p.value.0);
    }
  }

  /** A constant integer set read off an expression holds the evaluated values, in order. */
  lemma {:induction false} FoldAtomIntsSound(g: Arities, c: Ctx, env: Env, pol: bool, frames: seq<QuantFrame>, r: RelExpr)
    requires Setting(g, c, env) && TypedRel(g, r) && SafeRel(c, env, pol, frames, r)
    ensures FoldAtomInts(c.tr, env, r).Some? ==>
      FoldAtomInts(c.tr, env, r).value == AtomInts(c.tr, Sorted(EvalRel(c, env, pol, frames, r)))
    decreases r, 2
  {
    hide EvalFormula, SafeFormula;
    match r
    case Relation(rel) =>
      if rel in c.tr.bounds && c.tr.bounds[rel].lower == c.tr.bounds[rel].upper {
        assert c.inst[rel] == c.tr.bounds[rel].lower;
      }
    case Var(v) =>
      if v in env { SortedSingleton(env[v]); }
    case IntToAtom(ie) =>
      FoldedCast(g, c, env, pol, frames, ie);
      RelSound(g, c, env, pol, frames, r);
    case _ =>
  }

  lemma {:induction false} CastFlags(c: Ctx, env: Env, pol: bool, frames: seq<QuantFrame>, owner: IntExpr, casts: seq<IntExpr>, of: bool)
    requires forall ie | ie in casts :: (owner decreases to ie)
    requires forall ie | ie in casts && FoldInt(c.tr, env, ie).Some? :: FoldInt(c.tr, env, ie).value == EvalInt(c, env, pol, frames, ie)
    requires FoldCasts(c.tr, env, owner, casts, of).Some?
    ensures FoldCasts(c.tr, env, owner, casts, of).value == (of || AnyOverflow(c, env, pol, frames, owner, casts))
    decreases |casts|
  {
    hide EvalFormula, EvalRel, EvalInt, FoldFormula, FoldInt;
    if casts != [] {
      assert casts[0] in casts && forall ie | ie in casts[1..] :: ie in casts;
      if !of {
        CastFlags(c, env, pol, frames, owner, casts[1..], FoldInt(c.tr, env, casts[0]).value.1);
      }
    }
  }

  /** A folded integer is the evaluated value with the evaluated overflow flag. */
  lemma {:induction false} IntSound(g: Arities, c: Ctx, env: Env, pol: bool, frames: seq<QuantFrame>, i: IntExpr)
    requires Setting(g, c, env) && TypedInt(g, i) && SafeInt(c, env, pol, frames, i)
    ensures FoldInt(c.tr, env, i).Some? ==> FoldInt(c.tr, env, i).value == EvalInt(c, env, pol, frames, i)
    decreases i, 0
  {
    hide EvalRel;
    match i
    case Card(r) => CardSound(g, c, env, pol, frames, i, r);
    case AtomToInt(r) => FoldAtomIntsSound(g, c, env, pol, frames, r);
    case Neg(j) => IntSound(g, c, env, pol, frames, j);
    case IBin(_, l, r) => IntSound(g, c, env, pol, frames, l); IntSound(g, c, env, pol, frames, r);
    case IIte(cond, t, e) =>
      FormulaSound(g, c, env, pol, frames, cond);
      IntSound(g, c, env, pol, frames, t);
      IntSound(g, c, env, pol, frames, e);
    case _ =>
  }

  lemma {:induction false} CardSound(g: Arities, c: Ctx, env: Env, pol: bool, frames: seq<QuantFrame>, i: IntExpr, r: RelExpr)
    requires i == Card(r)
    requires Setting(g, c, env) && TypedRel(g, r) && SafeRel(c, env, pol, frames, r)
    ensures FoldInt(c.tr, env, i).Some? ==> FoldInt(c.tr, env, i).value == EvalInt(c, env, pol, frames, i)
    decreases r, 3
  {
    hide EvalFormula, TypedFormula;
    FoldCardSound(g, c, env, pol, frames, r);
    SafeCasts(c, env, pol, frames, r);
    TypedCasts(g, c.tr, env, r);
    forall ie | ie in Casts(c.tr, env, r)
      ensures FoldInt(c.tr, env, ie).Some? ==> FoldInt(c.tr, env, ie).value == EvalInt(c, env, pol, frames, ie)
    {
      IntSound(g, c, env, pol, frames, ie);
    }
    if FoldInt(c.tr, env, i).Some? {
      CastFlags(c, env, pol, frames, i, Casts(c.tr, env, r), FoldCard(c.tr, env, r).value > IntMax(c.tr.bw));
    }
  }

  lemma {:induction false} JunctionSound(c: Ctx, env: Env, pol: bool, frames: seq<QuantFrame>, owner: Formula, parts: seq<Formula>, absorbing: bool, known: bool)
    requires forall p | p in parts :: (owner decreases to p)
    requires forall p | p in parts && FoldFormula(c.tr, env, p).Some? :: FoldFormula(c.tr, env, p).value == EvalFormula(c, env, pol, frames, p)
    ensures FoldJunction(c.tr, env, owner, parts, absorbing, known) == Some(absorbing) ==>
      exists p | p in parts :: EvalFormula(c, env, pol, frames, p) == absorbing
    ensures FoldJunction(c.tr, env, owner, parts, absorbing, known) == Some(!absorbing) ==>
      forall p | p in parts :: EvalFormula(c, env, pol, frames, p) == !absorbing
    ensures FoldJunction(c.tr, env, owner, parts, absorbing, known) == Some(!absorbing) ==> known
    decreases |parts|
  {
    hide EvalFormula, FoldFormula;
    if parts != [] {
      assert parts[0] in parts && forall p | p in parts[1..] :: p in parts;
      var first := FoldFormula(c.tr, env, parts[0]);
      if first != Some(absorbing) {
        JunctionSound(c, env, pol, frames, owner, parts[1..], absorbing, known && first.Some?);
        assert parts == [parts[0]] + parts[1..];
      }
    }
  }

  /** A folded formula is the evaluated truth value. */
  lemma {:induction false} FormulaSound(g: Arities, c: Ctx, env: Env, pol: bool, frames: seq<QuantFrame>, f: Formula)
    requires Setting(g, c, env) && TypedFormula(g, f) && SafeFormula(c, env, pol, frames, f)
    ensures FoldFormula(c.tr, env, f).Some? ==> FoldFormula(c.tr, env, f).value == EvalFormula(c, env, pol, frames, f)
    decreases f, 1
  {
    hide EvalRel, FoldInt, FoldEmptiness;
    match f
    case Not(h) => FormulaSound(g, c, env, !pol, frames, h);
    case And(_) => PartsSound(g, c, env, pol, frames, f);
    case Or(_) => PartsSound(g, c, env, pol, frames, f);
    case Implies(a, k) => FormulaSound(g, c, env, pol, frames, a); FormulaSound(g, c, env, pol, frames, k);
    case Iff(l, r) => FormulaSound(g, c, env, pol, frames, l); FormulaSound(g, c, env, pol, frames, r);
    case IntCompare(op, l, r) => IntSound(g, c, env, pol, frames, l); IntSound(g, c, env, pol, frames, r);
    case MultTest(_, _) => TestSound(g, c, env, pol, frames, f);
    case _ =>
  }

  lemma {:induction false} TestSound(g: Arities, c: Ctx, env: Env, pol: bool, frames: seq<QuantFrame>, f: Formula)
    requires f.MultTest? && Setting(g, c, env) && TypedFormula(g, f) && SafeFormula(c, env, pol, frames, f)
    ensures FoldFormula(c.tr, env, f).Some? ==> FoldFormula(c.tr, env, f).value == EvalFormula(c, env, pol, frames, f)
    decreases f, 0
  {
    RelSound(g, c, env, pol, frames, f.e);
    GuardIsLastPull(c, env, pol, frames, f, TestCasts(c.tr, env, f.test, f.e), TestHolds(f.test, EvalRel(c, env, pol, frames, f.e)));
  }

  lemma {:induction false} PartsSound(g: Arities, c: Ctx, env: Env, pol: bool, frames: seq<QuantFrame>, f: Formula)
    requires (f.And? || f.Or?) && Setting(g, c, env) && TypedFormula(g, f) && SafeFormula(c, env, pol, frames, f)
    ensures FoldFormula(c.tr, env, f).Some? ==> FoldFormula(c.tr, env, f).value == EvalFormula(c, env, pol, frames, f)
    decreases f, 0
  {
    hide EvalRel;
    forall p | p in f.parts
      ensures FoldFormula(c.tr, env, p).Some? ==> FoldFormula(c.tr, env, p).value == EvalFormula(c, env, pol, frames, p)
    {
      FormulaSound(g, c, env, pol, frames, p);
    }
    JunctionSound(c, env, pol, frames, f, f.parts, f.Or?, true);
  }

  // ------------------------------------------------------------------ exactness of the conditions

  /** At a cast over a soundly folded operand, the folded emptiness is the evaluated one exactly
      when the side condition holds. */
  lemma CastConditionExact(c: Ctx, env: Env, pol: bool, frames: seq<QuantFrame>, ie: IntExpr)
    requires WellFormed(c) && !c.allow
    requires FoldInt(c.tr, env, ie).Some? ==> FoldInt(c.tr, env, ie).value == EvalInt(c, env, pol, frames, ie)
    ensures Decides(FoldEmptiness(c.tr, env, IntToAtom(ie)), EvalRel(c, env, pol, frames, IntToAtom(ie)))
       <==> SafeCast(c, env, ie)
  {
    hide EvalInt, FoldInt, EvalFormula, AtomInt, Pow2, FoldFormula;
    var p := FoldInt(c.tr, env, ie);
    if p.Some? && !p.value.1 {
      FoldedInRange(c.tr, env, ie);
      IntAtom(c, p.value.0);
    } else if p.Some? && !OverflowCapable(c.tr.bw, ie) {
      IncapableInRange(c, env, pol, frames, ie);
      IntAtom(c, p.value.0);
    }
  }

  /** At a multiplicity test over a soundly folded operand, the folded answer is the evaluated one
      exactly when no surviving cast overflows or the last that does agrees with it. */
  lemma TestConditionExact(c: Ctx, env: Env, pol: bool, frames: seq<QuantFrame>, test: MultTest, e: RelExpr)
    requires !c.allow
    requires Decides(FoldEmptiness(c.tr, env, e), EvalRel(c, env, pol, frames, e))
    requires FoldFormula(c.tr, env, MultTest(test, e)).Some?
    ensures FoldFormula(c.tr, env, MultTest(test, e)).value == EvalFormula(c, env, pol, frames, MultTest(test, e))
       <==> SafeTest(c, env, pol, frames, test, e)
  {
    hide EvalRel, EvalInt, FoldInt, FoldEmptiness;
    GuardIsLastPull(c, env, pol, frames, MultTest(test, e), TestCasts(c.tr, env, test, e),
                    TestHolds(test, EvalRel(c, env, pol, frames, e)));
  }

  /** A union or override that sheds an operand's casts loses no tuple: the operand is empty. */
  lemma ShedOperandIsEmpty(g: Arities, c: Ctx, env: Env, pol: bool, frames: seq<QuantFrame>, l: RelExpr, r: RelExpr)
    requires Setting(g, c, env) && TypedRel(g, RBin(Union, l, r)) && SafeRel(c, env, pol, frames, RBin(Union, l, r))
    ensures FoldEmptiness(c.tr, env, l) == Empty ==>
      EvalRel(c, env, pol, frames, RBin(Union, l, r)) == EvalRel(c, env, pol, frames, r)
    ensures FoldEmptiness(c.tr, env, r) == Empty ==>
      && EvalRel(c, env, pol, frames, RBin(Union, l, r)) == EvalRel(c, env, pol, frames, l)
      && EvalRel(c, env, pol, frames, RBin(OverrideOp, l, r)) == EvalRel(c, env, pol, frames, l)
  {
    hide FoldEmptiness;
    RelSound(g, c, env, pol, frames, l);
    RelSound(g, c, env, pol, frames, r);
  }

  // ------------------------------------------------------------------ the conditions are needed

  /** Every constant set whose chained sum overflows breaks the first condition: its cast folds to a
      cells-empty matrix, yet `int[.]` is not overflow-capable, so the evaluator keeps an atom. */
  lemma IncapableCastFails(c: Ctx, env: Env, pol: bool, frames: seq<QuantFrame>, rel: RelId)
    requires WellFormed(c) && InsideBounds(c) && !c.allow
    requires rel in c.tr.bounds && c.tr.bounds[rel].lower == c.tr.bounds[rel].upper
    requires SetToInt(c.tr, c.tr.bounds[rel].lower).1
    ensures FoldEmptiness(c.tr, env, IntToAtom(AtomToInt(Relation(rel)))) == Empty
    ensures EvalRel(c, env, pol, frames, IntToAtom(AtomToInt(Relation(rel)))) != {}
  {
    hide EvalFormula, EvalRel, FoldFormula;
    ConstantSetInt(c, env, pol, frames, rel);
    FlaggedCastKept(c, env, pol, frames, AtomToInt(Relation(rel)));
  }

  lemma FlaggedCastKept(c: Ctx, env: Env, pol: bool, frames: seq<QuantFrame>, ie: IntExpr)
    requires WellFormed(c) && !c.allow && !OverflowCapable(c.tr.bw, ie)
    requires FoldInt(c.tr, env, ie) == Some(EvalInt(c, env, pol, frames, ie)) && EvalInt(c, env, pol, frames, ie).1
    ensures FoldEmptiness(c.tr, env, IntToAtom(ie)) == Empty
    ensures EvalRel(c, env, pol, frames, IntToAtom(ie)) != {}
  {
    hide EvalFormula, EvalRel, EvalInt, FoldFormula;
    CastConditionExact(c, env, pol, frames, ie);
  }

  lemma ConstantSetInt(c: Ctx, env: Env, pol: bool, frames: seq<QuantFrame>, rel: RelId)
    requires InsideBounds(c) && rel in c.tr.bounds && c.tr.bounds[rel].lower == c.tr.bounds[rel].upper
    ensures FoldInt(c.tr, env, AtomToInt(Relation(rel))) == Some(SetToInt(c.tr, c.tr.bounds[rel].lower))
    ensures EvalInt(c, env, pol, frames, AtomToInt(Relation(rel))) == SetToInt(c.tr, c.tr.bounds[rel].lower)
  {
    hide EvalFormula, FoldFormula, FoldEmptiness;
    assert c.inst[rel] == c.tr.bounds[rel].lower;
  }

  /** Every cast that folds to an overflow, read by `no` under no quantifier, breaks the second one:
      the folder answers true and the guard makes the test false. */
  lemma TurnedTestFails(g: Arities, c: Ctx, env: Env, ie: IntExpr)
    requires Setting(g, c, env) && TypedInt(g, ie) && SafeInt(c, env, true, [], ie)
    requires OverflowCapable(c.tr.bw, ie)
    requires FoldInt(c.tr, env, ie).Some? && FoldInt(c.tr, env, ie).value.1
    ensures FoldFormula(c.tr, env, MultTest(TNo, IntToAtom(ie))) == Some(true)
    ensures !EvalFormula(c, env, true, [], MultTest(TNo, IntToAtom(ie)))
  {
    hide EvalInt, FoldInt;
    IntSound(g, c, env, true, [], ie);
    var casts := Casts(c.tr, env, IntToAtom(ie));
    assert casts == [ie] && casts[1..] == [];
    assert LastPull(c, env, true, [], casts[1..]) == None;
    GuardIsLastPull(c, env, true, [], MultTest(TNo, IntToAtom(ie)), casts, TestHolds(TNo, EvalRel(c, env, true, [], IntToAtom(ie))));
  }

  /** Two-bit integers -2..1 are the whole universe; relation 0 is the constant set {-2, -1}. */
  function TwoBitCtx(): Ctx {
    var neg := {[0], [1]};
    Ctx(map[0 := neg], Trans(map[0 := RelBound(neg, neg)], 2, 0, 4, 4), false, None, None, 0)
  }

  lemma TwoBitSum(tr: Trans, ts: seq<Tuple>)
    requires tr.bw == 2 && tr.intStart == 0 && tr.intEnd == 4 && ts == [[0], [1]]
    ensures AtomInts(tr, ts) == [-2, -1]
    ensures Accumulate(2, AtomInts(tr, ts), (0, false)).1
  {
    assert Pow2(1) == 2 && Pow2(2) == 4;
    var rest := ts[1..];
    assert rest == [[1]] && rest[1..] == [];
    assert AtomInts(tr, rest) == [-1];
    var vs := AtomInts(tr, ts);
    assert vs[1..] == [-1] && vs[1..][1..] == [];
    assert Accumulate(2, vs[1..], (-2, false)).1;
  }

  /** The first failure occurs: `Int[int[{-2, -1}]]` at bitwidth two. */
  lemma IncapableCastOccurs()
    ensures
      var c, cast := TwoBitCtx(), IntToAtom(AtomToInt(Relation(0)));
      FoldEmptiness(c.tr, map[], cast) == Empty && EvalRel(c, map[], true, [], cast) != {}
  {
    hide EvalFormula, EvalRel, FoldFormula, FoldInt;
    var c := TwoBitCtx();
    assert Pow2(1) == 2 && Pow2(2) == 4;
    var neg: TupleSet := {[0], [1]};
    var s := Sorted(neg);
    assert s[0] in neg && s[1] in neg && s[0] != s[1] && Leq(s[0], s[1]);
    TwoBitSum(c.tr, s);
    IncapableCastFails(c, map[], true, [], 0);
  }

  /** The second failure occurs: `no Int[plus[1, 1]]` at bitwidth two. */
  lemma TurnedTestOccurs()
    ensures
      var c, test := TwoBitCtx(), MultTest(TNo, IntToAtom(IBin(Add, IConst(1), IConst(1))));
      FoldFormula(c.tr, map[], test) == Some(true) && !EvalFormula(c, map[], true, [], test)
  {
    var c := TwoBitCtx();
    assert Pow2(1) == 2 && Pow2(2) == 4;
    var one := IConst(1);
    assert FoldInt(c.tr, map[], one) == Some((1, false));
    TurnedTestFails(Arities(map[0 := 1], map[]), c, map[], IBin(Add, one, one));
  }
}
