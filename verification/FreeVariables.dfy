/** The free variables the memo keys on (crates/als-core/src/freevars.rs), and the coincidence they buy:
    where overflow is allowed, a value depends on the environment only through them. */
module FreeVariables {
  import opened Algebra
  import opened LexOrder
  import opened Arithmetic
  import opened Ir
  import opened Folder
  import opened Semantics
  import opened NegationNormalForm

  function FreeF(f: Formula): set<VarId> {
    match f
    case Const(_) => {}
    case LoopIs(_) => {}
    case Not(g) => FreeF(g)
    case And(parts) => FreeParts(parts)
    case Or(parts) => FreeParts(parts)
    case Implies(a, k) => FreeF(a) + FreeF(k)
    case Iff(l, r) => FreeF(l) + FreeF(r)
    case RelCompare(_, l, r) => FreeR(l) + FreeR(r)
    case IntCompare(_, l, r) => FreeI(l) + FreeI(r)
    case MultTest(_, e) => FreeR(e)
    case Quant(_, v, bound, body) => FreeR(bound) + (FreeF(body) - {v})
  }

  /** A comprehension strips all its variables from all its bounds and its body at once. */
  function FreeR(r: RelExpr): set<VarId> {
    match r
    case Relation(_) => {}
    case Var(v) => {v}
    case RConst(_) => {}
    case RBin(_, l, rr) => FreeR(l) + FreeR(rr)
    case RUn(_, e) => FreeR(e)
    case RIte(cond, t, e) => FreeF(cond) + FreeR(t) + FreeR(e)
    case Comprehension(decls, body) => FreeBounds(decls) + FreeF(body) - DeclVars(decls)
    case IntToAtom(ie) => FreeI(ie)
  }

  function FreeI(i: IntExpr): set<VarId> {
    match i
    case IConst(_) => {}
    case Card(r) => FreeR(r)
    case AtomToInt(r) => FreeR(r)
    case Neg(j) => FreeI(j)
    case IBin(_, l, r) => FreeI(l) + FreeI(r)
    case Sum(v, bound, body) => FreeR(bound) + (FreeI(body) - {v})
    case IIte(cond, t, e) => FreeF(cond) + FreeI(t) + FreeI(e)
  }

  function FreeParts(parts: seq<Formula>): set<VarId> {
    if parts == [] then {} else FreeParts(parts[..|parts| - 1]) + FreeF(parts[|parts| - 1])
  }

  function FreeBounds(decls: seq<CompDecl>): set<VarId> {
    if decls == [] then {} else FreeBounds(decls[..|decls| - 1]) + FreeBound(decls[|decls| - 1])
  }

  function FreeBound(d: CompDecl): set<VarId> {
    FreeR(d.bound)
  }

  function DeclVars(decls: seq<CompDecl>): set<VarId> {
    if decls == [] then {} else DeclVars(decls[..|decls| - 1]) + {decls[|decls| - 1].v}
  }

  lemma {:induction false} InFreeParts(parts: seq<Formula>, k: nat)
    requires k < |parts|
    ensures FreeF(parts[k]) <= FreeParts(parts)
    decreases |parts|
  {
    if k < |parts| - 1 { InFreeParts(parts[..|parts| - 1], k); }
  }

  lemma {:induction false} InFreeBounds(decls: seq<CompDecl>, k: nat)
    requires k < |decls|
    ensures FreeR(decls[k].bound) <= FreeBounds(decls) && decls[k].v in DeclVars(decls)
    decreases |decls|
  {
    if k < |decls| - 1 { InFreeBounds(decls[..|decls| - 1], k); }
  }

  lemma {:induction false} DeclOf(decls: seq<CompDecl>, v: VarId) returns (k: nat)
    requires v in DeclVars(decls)
    ensures k < |decls| && decls[k].v == v
    decreases |decls|
  {
    if decls[|decls| - 1].v == v { k := |decls| - 1; } else { k := DeclOf(decls[..|decls| - 1], v); }
  }

  // ------------------------------------------------------------------ no bound looks forward

  /** No comprehension bound mentions its own declaration's variable or a later one's. */
  predicate OrderedF(f: Formula) {
    match f
    case Const(_) => true
    case LoopIs(_) => true
    case Not(g) => OrderedF(g)
    case And(parts) => forall k | 0 <= k < |parts| :: OrderedF(parts[k])
    case Or(parts) => forall k | 0 <= k < |parts| :: OrderedF(parts[k])
    case Implies(a, k) => OrderedF(a) && OrderedF(k)
    case Iff(l, r) => OrderedF(l) && OrderedF(r)
    case RelCompare(_, l, r) => OrderedR(l) && OrderedR(r)
    case IntCompare(_, l, r) => OrderedI(l) && OrderedI(r)
    case MultTest(_, e) => OrderedR(e)
    case Quant(_, _, bound, body) => OrderedR(bound) && OrderedF(body)
  }

  predicate OrderedR(r: RelExpr) {
    match r
    case RBin(_, l, rr) => OrderedR(l) && OrderedR(rr)
    case RUn(_, e) => OrderedR(e)
    case RIte(cond, t, e) => OrderedF(cond) && OrderedR(t) && OrderedR(e)
    case Comprehension(decls, body) =>
      && (forall k | 0 <= k < |decls| :: OrderedR(decls[k].bound))
      && (forall k, j | 0 <= k <= j < |decls| :: decls[j].v !in FreeR(decls[k].bound))
      && OrderedF(body)
    case IntToAtom(ie) => OrderedI(ie)
    case _ => true
  }

  predicate OrderedI(i: IntExpr) {
    match i
    case IConst(_) => true
    case Card(r) => OrderedR(r)
    case AtomToInt(r) => OrderedR(r)
    case Neg(j) => OrderedI(j)
    case IBin(_, l, r) => OrderedI(l) && OrderedI(r)
    case Sum(_, bound, body) => OrderedR(bound) && OrderedI(body)
    case IIte(cond, t, e) => OrderedF(cond) && OrderedI(t) && OrderedI(e)
  }

  // ------------------------------------------------------------------ the value where overflow is allowed

  // With overflow allowed neither polarity nor the enclosing quantifiers can be seen.

  ghost predicate FVal(c: Ctx, env: Env, f: Formula) {
    EvalFormula(c, env, true, [], f)
  }

  ghost function RVal(c: Ctx, env: Env, r: RelExpr): TupleSet {
    EvalRel(c, env, true, [], r)
  }

  ghost function IVal(c: Ctx, env: Env, i: IntExpr): Flagged {
    EvalInt(c, env, true, [], i)
  }

  lemma AnyPolarity(c: Ctx, env: Env, pol: bool, frames: seq<QuantFrame>, f: Formula)
    requires c.allow
    ensures EvalFormula(c, env, pol, frames, f) == FVal(c, env, f)
  {
    hide EvalFormula;
    AllowedFormula(c.tr.bw, f);
    SteadyFormula(c, env, pol, frames, true, [], f);
  }

  /** The quantifier's value in terms of its body's. */
  lemma QuantValue(c: Ctx, env: Env, f: Formula)
    requires c.allow && f.Quant?
    ensures FVal(c, env, f) <==>
            if f.kind == QAll then forall t | t in RVal(c, env, f.bound) :: FVal(c, env[f.v := t], f.body)
            else exists t | t in RVal(c, env, f.bound) :: FVal(c, env[f.v := t], f.body)
  {
    hide EvalFormula, EvalRel;
    var inner := [] + [Frame(c, true, f.kind, f.v, f.bound)];
    var range := RVal(c, env, f.bound);
    forall t | t in range
      ensures EvalFormula(c, env[f.v := t], true, inner, f.body) == FVal(c, env[f.v := t], f.body)
    {
      AnyPolarity(c, env[f.v := t], true, inner, f.body);
    }
    QuantUnfolds(c, env, f, range, inner);
  }

  lemma QuantUnfolds(c: Ctx, env: Env, f: Formula, range: TupleSet, inner: seq<QuantFrame>)
    requires f.Quant? && range == EvalRel(c, env, true, [], f.bound) && inner == [] + [Frame(c, true, f.kind, f.v, f.bound)]
    ensures EvalFormula(c, env, true, [], f) <==>
            if f.kind == QAll then forall t | t in range :: EvalFormula(c, env[f.v := t], true, inner, f.body)
            else exists t | t in range :: EvalFormula(c, env[f.v := t], true, inner, f.body)
  {
  }

  // ------------------------------------------------------------------ coincidence

  ghost predicate SameOn(env: Env, env': Env, vars: set<VarId>) {
    forall v | v in vars :: (v in env <==> v in env') && (v in env ==> env[v] == env'[v])
  }

  /** Environments that agree on a formula's free variables give it one value. */
  lemma {:induction false} CoincideF(c: Ctx, env: Env, env': Env, f: Formula)
    requires c.allow && OrderedF(f) && SameOn(env, env', FreeF(f))
    ensures FVal(c, env, f) == FVal(c, env', f)
    decreases f, 1
  {
    match f
    case Not(g) =>
      AnyPolarity(c, env, false, [], g);
      AnyPolarity(c, env', false, [], g);
      CoincideF(c, env, env', g);
    case And(parts) => forall k | 0 <= k < |parts| ensures FVal(c, env, parts[k]) == FVal(c, env', parts[k]) { PartCoincides(c, env, env', f, k); }
    case Or(parts) => forall k | 0 <= k < |parts| ensures FVal(c, env, parts[k]) == FVal(c, env', parts[k]) { PartCoincides(c, env, env', f, k); }
    case Implies(a, k) => CoincideF(c, env, env', a); CoincideF(c, env, env', k);
    case Iff(l, r) => CoincideF(c, env, env', l); CoincideF(c, env, env', r);
    case RelCompare(_, l, r) => CoincideR(c, env, env', l); CoincideR(c, env, env', r);
    case IntCompare(_, l, r) => CoincideI(c, env, env', l); CoincideI(c, env, env', r);
    case MultTest(_, e) => CoincideR(c, env, env', e);
    case Quant(_, _, _, _) => QuantCoincides(c, env, env', f);
    case _ =>
  }

  lemma {:induction false} PartCoincides(c: Ctx, env: Env, env': Env, f: Formula, k: nat)
    requires c.allow && OrderedF(f) && SameOn(env, env', FreeF(f)) && (f.And? || f.Or?) && k < |f.parts|
    ensures FVal(c, env, f.parts[k]) == FVal(c, env', f.parts[k])
    decreases f, 0
  {
    hide EvalFormula;
    InFreeParts(f.parts, k);
    CoincideF(c, env, env', f.parts[k]);
  }

  lemma {:induction false} QuantCoincides(c: Ctx, env: Env, env': Env, f: Formula)
    requires c.allow && f.Quant? && OrderedF(f) && SameOn(env, env', FreeF(f))
    ensures FVal(c, env, f) == FVal(c, env', f)
    decreases f, 0
  {
    hide EvalFormula, EvalRel;
    CoincideR(c, env, env', f.bound);
    QuantValue(c, env, f);
    QuantValue(c, env', f);
    forall t | t in RVal(c, env, f.bound)
      ensures FVal(c, env[f.v := t], f.body) == FVal(c, env'[f.v := t], f.body)
    {
      CoincideF(c, env[f.v := t], env'[f.v := t], f.body);
    }
  }

  lemma {:induction false} CoincideR(c: Ctx, env: Env, env': Env, r: RelExpr)
    requires c.allow && OrderedR(r) && SameOn(env, env', FreeR(r))
    ensures RVal(c, env, r) == RVal(c, env', r)
    decreases r, 1
  {
    match r
    case RBin(_, l, rr) => CoincideR(c, env, env', l); CoincideR(c, env, env', rr);
    case RUn(_, e) => CoincideR(c, env, env', e);
    case RIte(cond, t, e) => CoincideF(c, env, env', cond); CoincideR(c, env, env', t); CoincideR(c, env, env', e);
    case Comprehension(_, _) => DeclsCoincide(c, env, env', r, 0, []);
    case IntToAtom(ie) => CoincideI(c, env, env', ie);
    case _ =>
  }

  /** The variables a comprehension can read from its declaration `k` on: its free ones and the earlier ones. */
  function Readable(r: RelExpr, k: nat): set<VarId>
    requires r.Comprehension? && k <= |r.decls|
  {
    FreeR(r) + DeclVars(r.decls[..k])
  }

  lemma ReadsOnly(r: RelExpr, k: nat)
    requires r.Comprehension? && OrderedR(r) && k <= |r.decls|
    ensures k < |r.decls| ==> FreeR(r.decls[k].bound) <= Readable(r, k)
    ensures k < |r.decls| ==> Readable(r, k + 1) == Readable(r, k) + {r.decls[k].v}
    ensures k == |r.decls| ==> FreeF(r.body) <= Readable(r, k)
  {
    hide FreeBounds, DeclVars;
    if k < |r.decls| {
      InFreeBounds(r.decls, k);
      forall v | v in FreeR(r.decls[k].bound) ensures v in Readable(r, k) {
        if v !in FreeR(r) {
          var j := DeclOf(r.decls, v);
          assert j < k;
          assert r.decls[..k][j].v == v;
          InFreeBounds(r.decls[..k], j);
        }
      }
      MoreDecls(r.decls, k);
    } else {
      assert r.decls[..k] == r.decls;
    }
  }

  lemma MoreDecls(decls: seq<CompDecl>, k: nat)
    requires k < |decls|
    ensures DeclVars(decls[..k + 1]) == DeclVars(decls[..k]) + {decls[k].v}
  {
    assert decls[..k + 1][..k] == decls[..k];
  }

  lemma {:induction false} DeclsCoincide(c: Ctx, env: Env, env': Env, r: RelExpr, k: nat, prefix: Tuple)
    requires c.allow && r.Comprehension? && OrderedR(r) && k <= |r.decls| && SameOn(env, env', Readable(r, k))
    ensures EvalDecls(c, env, true, [], r, k, prefix) == EvalDecls(c, env', true, [], r, k, prefix)
    decreases r, 0, |r.decls| - k
  {
    ReadsOnly(r, k);
    if k == |r.decls| {
      CoincideF(c, env, env', r.body);
    } else {
      var d := r.decls[k];
      CoincideR(c, env, env', d.bound);
      forall t
        ensures EvalBinding(c, env, true, [], r, k, prefix, t) == EvalBinding(c, env', true, [], r, k, prefix, t)
      {
        DeclsCoincide(c, env[d.v := t], env'[d.v := t], r, k + 1, prefix + t);
      }
      forall u
        ensures u in EvalDecls(c, env, true, [], r, k, prefix) <==> u in EvalDecls(c, env', true, [], r, k, prefix)
      {
        InDecls(c, env, true, [], r, k, prefix, u);
        InDecls(c, env', true, [], r, k, prefix, u);
      }
    }
  }

  lemma {:induction false} CoincideI(c: Ctx, env: Env, env': Env, i: IntExpr)
    requires c.allow && OrderedI(i) && SameOn(env, env', FreeI(i))
    ensures IVal(c, env, i) == IVal(c, env', i)
    decreases i, 1
  {
    match i
    case Card(r) => CoincideR(c, env, env', r);
    case AtomToInt(r) => CoincideR(c, env, env', r);
    case Neg(j) => CoincideI(c, env, env', j);
    case IBin(_, l, r) => CoincideI(c, env, env', l); CoincideI(c, env, env', r);
    case Sum(_, bound, _) =>
      CoincideR(c, env, env', bound);
      SumCoincides(c, env, env', i, Sorted(RVal(c, env, bound)), (0, false));
    case IIte(cond, t, e) => CoincideF(c, env, env', cond); CoincideI(c, env, env', t); CoincideI(c, env, env', e);
    case _ =>
  }

  lemma {:induction false} SumCoincides(c: Ctx, env: Env, env': Env, i: IntExpr, ts: seq<Tuple>, acc: Flagged)
    requires c.allow && i.Sum? && OrderedI(i) && SameOn(env, env', FreeI(i))
    ensures EvalSum(c, env, true, [], i, ts, acc) == EvalSum(c, env', true, [], i, ts, acc)
    decreases i, 0, |ts|
  {
    hide EvalFormula, EvalRel, EvalInt;
    if ts != [] {
      CoincideI(c, env[i.v := ts[0]], env'[i.v := ts[0]], i.body);
      SumCoincides(c, env, env', i, ts[1..], AddFlagged(acc, IVal(c, env[i.v := ts[0]], i.body), c.tr.bw));
    }
  }

  // ------------------------------------------------------------------ why bounds must not look forward

  /** `some {x: y, y: univ | true}`: the first bound reads the second declaration's variable. */
  function ForwardTest(x: VarId, y: VarId): Formula {
    MultTest(TSome, Comprehension([CompDecl(x, Var(y)), CompDecl(y, RConst(CUniv))], Const(true)))
  }

  /** The analysis calls it closed, yet its value depends on what an enclosing binder gives that variable. */
  lemma ForwardBoundChanges(c: Ctx, x: VarId, y: VarId)
    requires c.allow && x != y && c.tr.univ > 0
    ensures FreeF(ForwardTest(x, y)) == {} && !OrderedF(ForwardTest(x, y))
    ensures FVal(c, map[y := [0]], ForwardTest(x, y)) && !FVal(c, map[], ForwardTest(x, y))
  {
    var r := ForwardTest(x, y).e;
    var decls := r.decls;
    assert decls[0].v == x && decls[1].v == y && decls[0].bound == Var(y) && decls[1].bound == RConst(CUniv);
    assert r == Comprehension(decls, Const(true)) && FreeF(Const(true)) == {};
    assert decls[..1] == [decls[0]] && [decls[0]][..0] == [];
    assert FreeBounds([decls[0]]) == FreeBounds([decls[0]][..0]) + FreeR(Var(y));
    assert FreeBounds(decls) == FreeBounds(decls[..1]) + FreeR(decls[1].bound);
    assert FreeBounds(decls) == {y};
    assert y in DeclVars(decls);
    assert FreeR(r) == {};
    assert decls[1].v in FreeR(decls[0].bound);
    ForwardUnbound(c, r, x, y);
    ForwardBound(c, r, x, y);
  }

  lemma ForwardUnbound(c: Ctx, r: RelExpr, x: VarId, y: VarId)
    requires r == ForwardTest(x, y).e
    ensures RVal(c, map[], r) == {}
  {
    hide EvalFormula, EvalInt;
    assert EvalRel(c, map[], true, [], r.decls[0].bound) == {};
    forall u ensures u !in EvalDecls(c, map[], true, [], r, 0, []) { InDecls(c, map[], true, [], r, 0, [], u); }
    assert EvalDecls(c, map[], true, [], r, 0, []) == {};
  }

  lemma ForwardBound(c: Ctx, r: RelExpr, x: VarId, y: VarId)
    requires r == ForwardTest(x, y).e && x != y && c.tr.univ > 0
    ensures [0, 0] in RVal(c, map[y := [0]], r)
  {
    var env: Env := map[y := [0]];
    var env1 := env[x := [0]];
    var env2 := env1[y := [0]];
    assert EvalDecls(c, env2, true, [], r, 2, [0, 0]) == {[0, 0]};
    assert [0] in EvalRel(c, env1, true, [], r.decls[1].bound);
    assert [0] + [0] == [0, 0] && [] + [0] == [0];
    assert [0, 0] in EvalBinding(c, env1, true, [], r, 1, [0], [0]);
    InDecls(c, env1, true, [], r, 1, [0], [0, 0]);
    assert [0] in EvalRel(c, env, true, [], r.decls[0].bound);
    assert [0, 0] in EvalBinding(c, env, true, [], r, 0, [], [0]);
    InDecls(c, env, true, [], r, 0, [], [0, 0]);
  }
}
