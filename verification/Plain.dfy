/** The relational meaning of integer-free formulas: no polarity, no quantifier frames, no guard. On
    them it is the evaluator's meaning in both overflow modes. */
module Plain {
  import opened Algebra
  import opened Closure
  import opened Ir
  import opened Folder
  import Semantics

  datatype Inst = Inst(rels: map<RelId, TupleSet>, univ: nat)

  function RelValue(i: Inst, r: RelId): TupleSet {
    if r in i.rels then i.rels[r] else {}
  }

  function ConstValue(i: Inst, k: RelConst): TupleSet {
    match k
    case CNone => {}
    case CUniv => UnivSet(i.univ)
    case CIden => IdenSet(i.univ)
  }

  ghost function UnValue(i: Inst, op: RelUnOp, a: TupleSet): TupleSet {
    match op
    case TransposeOp => Transpose(a)
    case ClosureOp => TransClosure(a)
    case ReflexiveClosure => TransClosure(a) + IdenSet(i.univ)
  }

  ghost predicate Holds(i: Inst, env: Env, f: Formula)
    decreases f, 1, 0
  {
    match f
    case Const(b) => b
    case Not(g) => !Holds(i, env, g)
    case And(parts) => forall k | 0 <= k < |parts| :: Holds(i, env, parts[k])
    case Or(parts) => exists k | 0 <= k < |parts| :: Holds(i, env, parts[k])
    case Implies(a, k) => Holds(i, env, a) ==> Holds(i, env, k)
    case Iff(l, r) => Holds(i, env, l) == Holds(i, env, r)
    case RelCompare(op, l, r) => Semantics.CompareSets(op, Value(i, env, l), Value(i, env, r))
    case MultTest(test, e) => Semantics.TestHolds(test, Value(i, env, e))
    case Quant(kind, v, bound, body) =>
      var range := Value(i, env, bound);
      if kind == QAll
      then forall t | t in range :: Holds(i, env[v := t], body)
      else exists t | t in range :: Holds(i, env[v := t], body)
    case IntCompare(_, _, _) => false
    case LoopIs(_) => false
  }

  ghost function Value(i: Inst, env: Env, r: RelExpr): TupleSet
    decreases r, 1, 0
  {
    match r
    case Relation(rel) => RelValue(i, rel)
    case Var(v) => if v in env then {env[v]} else {}
    case RConst(k) => ConstValue(i, k)
    case RBin(op, l, rr) => Semantics.BinValue(op, Value(i, env, l), Value(i, env, rr))
    case RUn(op, e) => UnValue(i, op, Value(i, env, e))
    case RIte(cond, t, e) => if Holds(i, env, cond) then Value(i, env, t) else Value(i, env, e)
    case Comprehension(_, _) => Collect(i, env, r, 0, [])
    case IntToAtom(_) => {}
  }

  ghost function Collect(i: Inst, env: Env, r: RelExpr, k: nat, prefix: Tuple): TupleSet
    requires r.Comprehension? && k <= |r.decls|
    decreases r, 0, 2 * (|r.decls| - k)
  {
    if k == |r.decls| then (if Holds(i, env, r.body) then {prefix} else {})
    else
      var range := Value(i, env, r.decls[k].bound);
      set t, u | t in range && u in CollectOne(i, env, r, k, prefix, t) :: u
  }

  ghost function CollectOne(i: Inst, env: Env, r: RelExpr, k: nat, prefix: Tuple, t: Tuple): TupleSet
    requires r.Comprehension? && k < |r.decls|
    decreases r, 0, 2 * (|r.decls| - k) - 1
  {
    Collect(i, env[r.decls[k].v := t], r, k + 1, prefix + t)
  }

  lemma InCollect(i: Inst, env: Env, r: RelExpr, k: nat, prefix: Tuple, u: Tuple)
    requires r.Comprehension? && k < |r.decls|
    ensures u in Collect(i, env, r, k, prefix) ==>
            exists t :: t in Value(i, env, r.decls[k].bound) && u in CollectOne(i, env, r, k, prefix, t)
    ensures (exists t :: t in Value(i, env, r.decls[k].bound) && u in CollectOne(i, env, r, k, prefix, t))
            ==> u in Collect(i, env, r, k, prefix)
  {
    var range := Value(i, env, r.decls[k].bound);
    if u in Collect(i, env, r, k, prefix) {
      var t :| t in range && u in CollectOne(i, env, r, k, prefix, t);
    }
  }

  // ------------------------------------------------------------------ integer-free expressions

  predicate IntFreeFormula(f: Formula) {
    match f
    case Const(_) => true
    case Not(g) => IntFreeFormula(g)
    case And(parts) => forall k | 0 <= k < |parts| :: IntFreeFormula(parts[k])
    case Or(parts) => forall k | 0 <= k < |parts| :: IntFreeFormula(parts[k])
    case Implies(a, k) => IntFreeFormula(a) && IntFreeFormula(k)
    case Iff(l, r) => IntFreeFormula(l) && IntFreeFormula(r)
    case RelCompare(_, l, r) => IntFreeRel(l) && IntFreeRel(r)
    case MultTest(_, e) => IntFreeRel(e)
    case Quant(_, _, bound, body) => IntFreeRel(bound) && IntFreeFormula(body)
    case IntCompare(_, _, _) => false
    case LoopIs(_) => false
  }

  predicate IntFreeRel(r: RelExpr) {
    match r
    case RBin(_, l, rr) => IntFreeRel(l) && IntFreeRel(rr)
    case RUn(_, e) => IntFreeRel(e)
    case RIte(cond, t, e) => IntFreeFormula(cond) && IntFreeRel(t) && IntFreeRel(e)
    case Comprehension(decls, body) =>
      (forall k | 0 <= k < |decls| :: IntFreeRel(decls[k].bound)) && IntFreeFormula(body)
    case IntToAtom(_) => false
    case _ => true
  }

  lemma {:induction false} NoCasts(c: Trans, env: Env, r: RelExpr)
    requires IntFreeRel(r)
    ensures Casts(c, env, r) == []
  {
    match r
    case RBin(_, l, rr) => NoCasts(c, env, l); NoCasts(c, env, rr);
    case RUn(_, e) => NoCasts(c, env, e);
    case RIte(_, t, e) => NoCasts(c, env, t); NoCasts(c, env, e);
    case _ =>
  }

  /** On integer-free formulas the evaluator never guards: overflow mode, polarity and enclosing
      quantifiers do not matter. */
  lemma {:induction false} FormulaMeaning(c: Semantics.Ctx, env: Env, pol: bool, frames: seq<QuantFrame>, f: Formula)
    requires IntFreeFormula(f)
    ensures Semantics.EvalFormula(c, env, pol, frames, f) == Holds(Inst(c.inst, c.tr.univ), env, f)
    decreases f, 1, 0
  {
    var i := Inst(c.inst, c.tr.univ);
    match f
    case Not(g) => FormulaMeaning(c, env, !pol, frames, g);
    case And(parts) => forall k | 0 <= k < |parts| { FormulaMeaning(c, env, pol, frames, parts[k]); }
    case Or(parts) => forall k | 0 <= k < |parts| { FormulaMeaning(c, env, pol, frames, parts[k]); }
    case Implies(a, k) => FormulaMeaning(c, env, pol, frames, a); FormulaMeaning(c, env, pol, frames, k);
    case Iff(l, r) => FormulaMeaning(c, env, pol, frames, l); FormulaMeaning(c, env, pol, frames, r);
    case RelCompare(_, l, r) =>
      RelMeaning(c, env, pol, frames, l);
      RelMeaning(c, env, pol, frames, r);
      NoCasts(c.tr, env, l);
      NoCasts(c.tr, env, r);
    case MultTest(_, e) =>
      RelMeaning(c, env, pol, frames, e);
      NoCasts(c.tr, env, e);
    case Quant(kind, v, bound, body) =>
      RelMeaning(c, env, pol, frames, bound);
      var inner := frames + [Semantics.Frame(c, pol, kind, v, bound)];
      forall t | t in Value(i, env, bound) { FormulaMeaning(c, env[v := t], pol, inner, body); }
    case _ =>
  }

  lemma {:induction false} RelMeaning(c: Semantics.Ctx, env: Env, pol: bool, frames: seq<QuantFrame>, r: RelExpr)
    requires IntFreeRel(r)
    ensures Semantics.EvalRel(c, env, pol, frames, r) == Value(Inst(c.inst, c.tr.univ), env, r)
    decreases r, 1, 0
  {
    match r
    case RBin(_, l, rr) => RelMeaning(c, env, pol, frames, l); RelMeaning(c, env, pol, frames, rr);
    case RUn(_, e) => RelMeaning(c, env, pol, frames, e);
    case RIte(cond, t, e) =>
      FormulaMeaning(c, env, pol, frames, cond);
      RelMeaning(c, env, pol, frames, t);
      RelMeaning(c, env, pol, frames, e);
    case Comprehension(_, _) => CollectMeaning(c, env, pol, frames, r, 0, []);
    case _ =>
  }

  lemma {:induction false} CollectMeaning(c: Semantics.Ctx, env: Env, pol: bool, frames: seq<QuantFrame>, r: RelExpr, k: nat, prefix: Tuple)
    requires IntFreeRel(r) && r.Comprehension? && k <= |r.decls|
    ensures Semantics.EvalDecls(c, env, pol, frames, r, k, prefix) == Collect(Inst(c.inst, c.tr.univ), env, r, k, prefix)
    decreases r, 0, |r.decls| - k
  {
    var i := Inst(c.inst, c.tr.univ);
    if k == |r.decls| {
      FormulaMeaning(c, env, pol, frames, r.body);
    } else {
      var d := r.decls[k];
      RelMeaning(c, env, pol, frames, d.bound);
      forall t
        ensures Semantics.EvalBinding(c, env, pol, frames, r, k, prefix, t) == CollectOne(i, env, r, k, prefix, t)
      {
        CollectMeaning(c, env[d.v := t], pol, frames, r, k + 1, prefix + t);
      }
      forall u
        ensures u in Semantics.EvalDecls(c, env, pol, frames, r, k, prefix) <==> u in Collect(i, env, r, k, prefix)
      {
        Semantics.InDecls(c, env, pol, frames, r, k, prefix, u);
        InCollect(i, env, r, k, prefix, u);
      }
    }
  }
}
