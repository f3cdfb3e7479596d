/** The arity discipline the resolver establishes and the evaluator relies on
    (crates/als-core/src/lower.rs, `ir_arity`). */
module Typing {
  import opened Algebra
  import opened Ir
  import opened Folder
  import opened Semantics

  datatype Arities = Arities(rels: map<RelId, nat>, vars: map<VarId, nat>)

  function VarArity(g: Arities, v: VarId): nat {
    if v in g.vars then g.vars[v] else 0
  }

  function DeclArity(g: Arities, decls: seq<CompDecl>): nat {
    if decls == [] then 0 else VarArity(g, decls[0].v) + DeclArity(g, decls[1..])
  }

  function ArityOf(g: Arities, r: RelExpr): nat {
    match r
    case Relation(rel) => if rel in g.rels then g.rels[rel] else 0
    case Var(v) => VarArity(g, v)
    case RConst(k) => if k == CIden then 2 else 1
    case RBin(op, l, rr) =>
      if op == JoinOp then
        var n := ArityOf(g, l) + ArityOf(g, rr);
        if n >= 2 then n - 2 else 0
      else if op == ProductOp then ArityOf(g, l) + ArityOf(g, rr)
      else ArityOf(g, l)
    case RUn(_, _) => 2
    case RIte(_, t, _) => ArityOf(g, t)
    case Comprehension(decls, _) => DeclArity(g, decls)
    case IntToAtom(_) => 1
  }

  predicate TypedRel(g: Arities, r: RelExpr) {
    match r
    case Relation(rel) => rel in g.rels && g.rels[rel] >= 1
    case Var(v) => v in g.vars && g.vars[v] >= 1
    case RConst(_) => true
    case RBin(op, l, rr) =>
      && TypedRel(g, l) && TypedRel(g, rr)
      && ArityOf(g, l) >= 1 && ArityOf(g, rr) >= 1
      && (op == JoinOp ==> ArityOf(g, l) + ArityOf(g, rr) >= 3)
      && (op != JoinOp && op != ProductOp ==> ArityOf(g, l) == ArityOf(g, rr))
    case RUn(_, e) => TypedRel(g, e) && ArityOf(g, e) == 2
    case RIte(cond, t, e) =>
      TypedFormula(g, cond) && TypedRel(g, t) && TypedRel(g, e) && ArityOf(g, t) == ArityOf(g, e)
    case Comprehension(decls, body) =>
      && (forall k | 0 <= k < |decls| ::
            decls[k].v in g.vars && TypedRel(g, decls[k].bound) && ArityOf(g, decls[k].bound) == VarArity(g, decls[k].v))
      && TypedFormula(g, body)
    case IntToAtom(ie) => TypedInt(g, ie)
  }

  predicate TypedInt(g: Arities, i: IntExpr) {
    match i
    case IConst(_) => true
    case Card(r) => TypedRel(g, r)
    case AtomToInt(r) => TypedRel(g, r)
    case Neg(j) => TypedInt(g, j)
    case IBin(_, l, r) => TypedInt(g, l) && TypedInt(g, r)
    case Sum(v, bound, body) =>
      v in g.vars && TypedRel(g, bound) && ArityOf(g, bound) == VarArity(g, v) && TypedInt(g, body)
    case IIte(cond, t, e) => TypedFormula(g, cond) && TypedInt(g, t) && TypedInt(g, e)
  }

  predicate TypedFormula(g: Arities, f: Formula) {
    match f
    case Const(_) => true
    case LoopIs(_) => true
    case Not(h) => TypedFormula(g, h)
    case And(parts) => forall k | 0 <= k < |parts| :: TypedFormula(g, parts[k])
    case Or(parts) => forall k | 0 <= k < |parts| :: TypedFormula(g, parts[k])
    case Implies(a, k) => TypedFormula(g, a) && TypedFormula(g, k)
    case Iff(l, r) => TypedFormula(g, l) && TypedFormula(g, r)
    case RelCompare(_, l, r) => TypedRel(g, l) && TypedRel(g, r) && ArityOf(g, l) == ArityOf(g, r)
    case IntCompare(_, l, r) => TypedInt(g, l) && TypedInt(g, r)
    case MultTest(_, e) => TypedRel(g, e)
    case Quant(_, v, bound, body) =>
      v in g.vars && TypedRel(g, bound) && ArityOf(g, bound) == VarArity(g, v) && TypedFormula(g, body)
  }

  ghost predicate TypedEnv(g: Arities, env: Env) {
    forall v | v in env :: v in g.vars && |env[v]| == g.vars[v]
  }

  ghost predicate TypedInstance(g: Arities, c: Ctx) {
    forall r | r in c.inst && r in g.rels :: HasArity(c.inst[r], g.rels[r])
  }

  /** A typed expression only ever denotes tuples of its static arity. */
  lemma {:induction false} RelArity(g: Arities, c: Ctx, env: Env, pol: bool, frames: seq<QuantFrame>, r: RelExpr)
    requires TypedInstance(g, c) && TypedEnv(g, env) && TypedRel(g, r)
    ensures HasArity(EvalRel(c, env, pol, frames, r), ArityOf(g, r))
    decreases r, 1, 0
  {
    match r
    case RBin(op, l, rr) =>
      RelArity(g, c, env, pol, frames, l);
      RelArity(g, c, env, pol, frames, rr);
      BinValueArity(op, EvalRel(c, env, pol, frames, l), EvalRel(c, env, pol, frames, rr), ArityOf(g, l), ArityOf(g, rr));
    case RUn(op, e) =>
      RelArity(g, c, env, pol, frames, e);
    case RIte(cond, t, e) =>
      RelArity(g, c, env, pol, frames, t);
      RelArity(g, c, env, pol, frames, e);
    case Comprehension(decls, body) =>
      DeclsArity(g, c, env, pol, frames, r, 0, []);
      assert decls[0..] == decls;
    case _ =>
  }

  lemma BinValueArity(op: RelBinOp, a: TupleSet, b: TupleSet, m: nat, n: nat)
    requires HasArity(a, m) && HasArity(b, n) && m >= 1 && n >= 1
    requires op == JoinOp || op == ProductOp || m == n
    ensures op == JoinOp ==> HasArity(BinValue(op, a, b), m + n - 2)
    ensures op == ProductOp ==> HasArity(BinValue(op, a, b), m + n)
    ensures op != JoinOp && op != ProductOp ==> HasArity(BinValue(op, a, b), m)
  {
  }

  lemma {:induction false} DeclsArity(g: Arities, c: Ctx, env: Env, pol: bool, frames: seq<QuantFrame>, r: RelExpr, k: nat, prefix: Tuple)
    requires TypedInstance(g, c) && TypedEnv(g, env) && TypedRel(g, r)
    requires r.Comprehension? && k <= |r.decls|
    ensures HasArity(EvalDecls(c, env, pol, frames, r, k, prefix), |prefix| + DeclArity(g, r.decls[k..]))
    decreases r, 0, |r.decls| - k
  {
    if k < |r.decls| {
      var d := r.decls[k];
      RelArity(g, c, env, pol, frames, d.bound);
      forall u | u in EvalDecls(c, env, pol, frames, r, k, prefix)
        ensures |u| == |prefix| + DeclArity(g, r.decls[k..])
      {
        var t :| t in EvalRel(c, env, pol, frames, d.bound) && u in EvalBinding(c, env, pol, frames, r, k, prefix, t);
        BindTyped(g, c, env, d, t);
        DeclsArity(g, c, env[d.v := t], pol, frames, r, k + 1, prefix + t);
        assert r.decls[k..][1..] == r.decls[k + 1..];
      }
    }
  }

  lemma BindTyped(g: Arities, c: Ctx, env: Env, d: CompDecl, t: Tuple)
    requires TypedEnv(g, env) && |t| == VarArity(g, d.v) && d.v in g.vars
    ensures TypedEnv(g, env[d.v := t])
  {
  }
}
