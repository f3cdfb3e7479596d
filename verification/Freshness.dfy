/** Ids below an allocation mark. A lowered expression mentions only ids allocated before it was built,
    so later variables and skolem relations cannot change its value. */
module Freshness {
  import opened Algebra
  import opened Ir
  import opened Folder
  import opened Plain

  /** Every variable, bound or free, is below `nv` and every relation below `nr`. */
  predicate BelowFormula(f: Formula, nv: nat, nr: nat) {
    match f
    case Not(g) => BelowFormula(g, nv, nr)
    case And(parts) => forall k | 0 <= k < |parts| :: BelowFormula(parts[k], nv, nr)
    case Or(parts) => forall k | 0 <= k < |parts| :: BelowFormula(parts[k], nv, nr)
    case Implies(a, k) => BelowFormula(a, nv, nr) && BelowFormula(k, nv, nr)
    case Iff(l, r) => BelowFormula(l, nv, nr) && BelowFormula(r, nv, nr)
    case RelCompare(_, l, r) => BelowRel(l, nv, nr) && BelowRel(r, nv, nr)
    case MultTest(_, e) => BelowRel(e, nv, nr)
    case Quant(_, v, bound, body) => v < nv && BelowRel(bound, nv, nr) && BelowFormula(body, nv, nr)
    case IntCompare(_, _, _) => true
    case Const(_) => true
    case LoopIs(_) => true
  }

  predicate BelowRel(r: RelExpr, nv: nat, nr: nat) {
    match r
    case Relation(rel) => rel < nr
    case Var(v) => v < nv
    case RConst(_) => true
    case RBin(_, l, rr) => BelowRel(l, nv, nr) && BelowRel(rr, nv, nr)
    case RUn(_, e) => BelowRel(e, nv, nr)
    case RIte(cond, t, e) => BelowFormula(cond, nv, nr) && BelowRel(t, nv, nr) && BelowRel(e, nv, nr)
    case Comprehension(decls, body) =>
      && (forall k | 0 <= k < |decls| :: decls[k].v < nv && BelowRel(decls[k].bound, nv, nr))
      && BelowFormula(body, nv, nr)
    case IntToAtom(_) => true
  }

  lemma {:induction false} BelowFormulaGrows(f: Formula, nv: nat, nr: nat, nv': nat, nr': nat)
    requires BelowFormula(f, nv, nr) && nv <= nv' && nr <= nr'
    ensures BelowFormula(f, nv', nr')
    decreases f
  {
    match f
    case Not(g) => BelowFormulaGrows(g, nv, nr, nv', nr');
    case And(parts) => forall k | 0 <= k < |parts| { BelowFormulaGrows(parts[k], nv, nr, nv', nr'); }
    case Or(parts) => forall k | 0 <= k < |parts| { BelowFormulaGrows(parts[k], nv, nr, nv', nr'); }
    case Implies(a, k) => BelowFormulaGrows(a, nv, nr, nv', nr'); BelowFormulaGrows(k, nv, nr, nv', nr');
    case Iff(l, r) => BelowFormulaGrows(l, nv, nr, nv', nr'); BelowFormulaGrows(r, nv, nr, nv', nr');
    case RelCompare(_, l, r) => BelowRelGrows(l, nv, nr, nv', nr'); BelowRelGrows(r, nv, nr, nv', nr');
    case MultTest(_, e) => BelowRelGrows(e, nv, nr, nv', nr');
    case Quant(_, v, bound, body) => BelowRelGrows(bound, nv, nr, nv', nr'); BelowFormulaGrows(body, nv, nr, nv', nr');
    case _ =>
  }

  lemma {:induction false} BelowRelGrows(r: RelExpr, nv: nat, nr: nat, nv': nat, nr': nat)
    requires BelowRel(r, nv, nr) && nv <= nv' && nr <= nr'
    ensures BelowRel(r, nv', nr')
    decreases r
  {
    match r
    case RBin(_, l, rr) => BelowRelGrows(l, nv, nr, nv', nr'); BelowRelGrows(rr, nv, nr, nv', nr');
    case RUn(_, e) => BelowRelGrows(e, nv, nr, nv', nr');
    case RIte(cond, t, e) =>
      BelowFormulaGrows(cond, nv, nr, nv', nr');
      BelowRelGrows(t, nv, nr, nv', nr');
      BelowRelGrows(e, nv, nr, nv', nr');
    case Comprehension(decls, body) =>
      forall k | 0 <= k < |decls| { BelowRelGrows(decls[k].bound, nv, nr, nv', nr'); }
      BelowFormulaGrows(body, nv, nr, nv', nr');
    case _ =>
  }

  /** Equal on every variable below `nv`. */
  ghost predicate SameEnv(e: Env, e': Env, nv: nat) {
    forall v: VarId | v < nv :: (v in e <==> v in e') && (v in e ==> e[v] == e'[v])
  }

  /** Equal on every relation below `nr`, over one universe. */
  ghost predicate SameInst(i: Inst, i': Inst, nr: nat) {
    i.univ == i'.univ && forall r: RelId | r < nr :: RelValue(i, r) == RelValue(i', r)
  }

  lemma {:induction false} FormulaFrame(i: Inst, i': Inst, env: Env, env': Env, f: Formula, nv: nat, nr: nat)
    requires SameInst(i, i', nr) && SameEnv(env, env', nv) && BelowFormula(f, nv, nr)
    ensures Holds(i, env, f) == Holds(i', env', f)
    decreases f, 1, 0
  {
    match f
    case Not(g) => FormulaFrame(i, i', env, env', g, nv, nr);
    case And(parts) => forall k | 0 <= k < |parts| { FormulaFrame(i, i', env, env', parts[k], nv, nr); }
    case Or(parts) => forall k | 0 <= k < |parts| { FormulaFrame(i, i', env, env', parts[k], nv, nr); }
    case Implies(a, k) => FormulaFrame(i, i', env, env', a, nv, nr); FormulaFrame(i, i', env, env', k, nv, nr);
    case Iff(l, r) => FormulaFrame(i, i', env, env', l, nv, nr); FormulaFrame(i, i', env, env', r, nv, nr);
    case RelCompare(_, l, r) => RelFrame(i, i', env, env', l, nv, nr); RelFrame(i, i', env, env', r, nv, nr);
    case MultTest(_, e) => RelFrame(i, i', env, env', e, nv, nr);
    case Quant(_, v, bound, body) =>
      RelFrame(i, i', env, env', bound, nv, nr);
      forall t | t in Value(i, env, bound) { FormulaFrame(i, i', env[v := t], env'[v := t], body, nv, nr); }
    case _ =>
  }

  lemma {:induction false} RelFrame(i: Inst, i': Inst, env: Env, env': Env, r: RelExpr, nv: nat, nr: nat)
    requires SameInst(i, i', nr) && SameEnv(env, env', nv) && BelowRel(r, nv, nr)
    ensures Value(i, env, r) == Value(i', env', r)
    decreases r, 1, 0
  {
    match r
    case RBin(_, l, rr) => RelFrame(i, i', env, env', l, nv, nr); RelFrame(i, i', env, env', rr, nv, nr);
    case RUn(_, e) => RelFrame(i, i', env, env', e, nv, nr);
    case RIte(cond, t, e) =>
      FormulaFrame(i, i', env, env', cond, nv, nr);
      RelFrame(i, i', env, env', t, nv, nr);
      RelFrame(i, i', env, env', e, nv, nr);
    case Comprehension(_, _) => CollectFrame(i, i', env, env', r, 0, [], nv, nr);
    case _ =>
  }

  lemma {:induction false} CollectFrame(i: Inst, i': Inst, env: Env, env': Env, r: RelExpr, k: nat, prefix: Tuple, nv: nat, nr: nat)
    requires SameInst(i, i', nr) && SameEnv(env, env', nv) && BelowRel(r, nv, nr)
    requires r.Comprehension? && k <= |r.decls|
    ensures Collect(i, env, r, k, prefix) == Collect(i', env', r, k, prefix)
    decreases r, 0, |r.decls| - k
  {
    if k == |r.decls| {
      FormulaFrame(i, i', env, env', r.body, nv, nr);
    } else {
      var d := r.decls[k];
      RelFrame(i, i', env, env', d.bound, nv, nr);
      forall t
        ensures CollectOne(i, env, r, k, prefix, t) == CollectOne(i', env', r, k, prefix, t)
      {
        CollectFrame(i, i', env[d.v := t], env'[d.v := t], r, k + 1, prefix + t, nv, nr);
      }
      forall u
        ensures u in Collect(i, env, r, k, prefix) <==> u in Collect(i', env', r, k, prefix)
      {
        InCollect(i, env, r, k, prefix, u);
        InCollect(i', env', r, k, prefix, u);
      }
    }
  }
}
