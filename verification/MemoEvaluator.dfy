/** The evaluator with its formula memo armed (crates/als-core/src/eval.rs), where overflow is allowed:
    memoised evaluation gives what plain evaluation gives at every node and environment. */
module MemoEvaluation {
  import opened Algebra
  import opened Closure
  import opened LexOrder
  import opened Arithmetic
  import opened Ir
  import opened Folder
  import opened Semantics
  import opened Typing
  import opened FreeVariables
  import opened Arena

  /** What the evaluator asks of an expression: typed, no bound looking forward, every free variable bound. */
  ghost predicate ReadyF(g: Arities, env: Env, f: Formula) {
    TypedFormula(g, f) && OrderedF(f) && FreeF(f) <= env.Keys && TypedEnv(g, env)
  }

  ghost predicate ReadyR(g: Arities, env: Env, r: RelExpr) {
    TypedRel(g, r) && OrderedR(r) && FreeR(r) <= env.Keys && TypedEnv(g, env)
  }

  ghost predicate ReadyI(g: Arities, env: Env, i: IntExpr) {
    TypedInt(g, i) && OrderedI(i) && FreeI(i) <= env.Keys && TypedEnv(g, env)
  }

  /** One memo entry: the node's value under exactly the bindings of its free variables. */
  ghost predicate Entry(a: Nodes, rk: Ranks, c: Ctx, id: nat, key: Env, v: bool)
    requires GoodArena(a, rk)
  {
    id < |a.formulas| && key.Keys == FreeF(TreeF(a, rk, id)) && FVal(c, key, TreeF(a, rk, id)) == v
  }

  ghost predicate MemoTrue(a: Nodes, rk: Ranks, c: Ctx, memo: map<(nat, Env), bool>)
    requires GoodArena(a, rk)
  {
    forall k | k in memo :: Entry(a, rk, c, k.0, k.1, memo[k])
  }

  function KeyOf(env: Env, free: set<VarId>): (key: Env)
    requires free <= env.Keys
    ensures key.Keys == free && SameOn(env, key, free)
  {
    map v | v in free :: env[v]
  }

  lemma KeyValue(c: Ctx, env: Env, f: Formula)
    requires c.allow && OrderedF(f) && FreeF(f) <= env.Keys
    ensures FVal(c, env, f) == FVal(c, KeyOf(env, FreeF(f)), f)
  {
    CoincideF(c, env, KeyOf(env, FreeF(f)), f);
  }

  lemma PartReady(g: Arities, env: Env, f: Formula, k: nat)
    requires (f.And? || f.Or?) && k < |f.parts| && ReadyF(g, env, f)
    ensures ReadyF(g, env, f.parts[k])
  {
    InFreeParts(f.parts, k);
  }

  lemma BodyReady(g: Arities, c: Ctx, env: Env, f: Formula, t: Tuple)
    requires f.Quant? && ReadyF(g, env, f) && TypedInstance(g, c) && t in RVal(c, env, f.bound)
    ensures ReadyF(g, env[f.v := t], f.body)
  {
    RelArity(g, c, env, true, [], f.bound);
  }

  lemma SumBodyReady(g: Arities, c: Ctx, env: Env, i: IntExpr, t: Tuple)
    requires i.Sum? && ReadyI(g, env, i) && TypedInstance(g, c) && t in RVal(c, env, i.bound)
    ensures ReadyI(g, env[i.v := t], i.body)
  {
    RelArity(g, c, env, true, [], i.bound);
  }

  /** Ready to go on from declaration `k` of a comprehension. */
  ghost predicate ReadyFrom(g: Arities, env: Env, r: RelExpr, k: nat)
    requires r.Comprehension? && k <= |r.decls|
  {
    TypedRel(g, r) && OrderedR(r) && Readable(r, k) <= env.Keys && TypedEnv(g, env)
  }

  lemma DeclReady(g: Arities, env: Env, r: RelExpr, k: nat)
    requires r.Comprehension? && k <= |r.decls| && ReadyFrom(g, env, r, k)
    ensures k < |r.decls| ==> ReadyR(g, env, r.decls[k].bound)
    ensures k == |r.decls| ==> ReadyF(g, env, r.body)
  {
    ReadsOnly(r, k);
  }

  lemma NextReady(g: Arities, c: Ctx, env: Env, r: RelExpr, k: nat, t: Tuple)
    requires r.Comprehension? && k < |r.decls| && ReadyFrom(g, env, r, k) && TypedInstance(g, c) && t in RVal(c, env, r.decls[k].bound)
    ensures ReadyFrom(g, env[r.decls[k].v := t], r, k + 1)
  {
    ReadsOnly(r, k);
    RelArity(g, c, env, true, [], r.decls[k].bound);
  }

  method RelBinary(op: RelBinOp, x: TupleSet, y: TupleSet) returns (out: TupleSet)
    ensures out == BinValue(op, x, y)
  {
    match op
    case Union => out := UnionLoop(x, y);
    case Diff => out := DiffLoop(x, y);
    case Intersect => out := IntersectLoop(x, y);
    case JoinOp => out := JoinLoop(x, y);
    case ProductOp => out := ProductLoop(x, y);
    case OverrideOp => out := OverrideLoop(x, y);
  }

  method RelUnary(c: Ctx, op: RelUnOp, x: TupleSet) returns (out: TupleSet)
    requires HasArity(x, 2)
    ensures out == UnValue(c, op, x)
  {
    match op
    case TransposeOp => out := TransposeLoop(x);
    case ClosureOp => out := ClosureBySquaring(x);
    case ReflexiveClosure =>
      out := ClosureBySquaring(x);
      out := UnionLoop(out, IdenSet(c.tr.univ));
  }

  /** A sum adds its body over the bound's tuples in order. */
  lemma SumUnfolds(c: Ctx, env: Env, i: IntExpr)
    requires i.Sum?
    ensures IVal(c, env, i) == EvalSum(c, env, true, [], i, Sorted(RVal(c, env, i.bound)), (0, false))
  {
  }

  lemma SumStep(c: Ctx, env: Env, i: IntExpr, ts: seq<Tuple>, acc: Flagged)
    requires i.Sum?
    ensures EvalSum(c, env, true, [], i, [], acc) == acc
    ensures ts != [] ==>
      (EvalSum(c, env, true, [], i, ts, acc)
       == EvalSum(c, env, true, [], i, ts[1..], AddFlagged(acc, IVal(c, env[i.v := ts[0]], i.body), c.tr.bw)))
  {
  }

  class MemoEvaluator {
    const a: Nodes
    const c: Ctx
    ghost const rk: Ranks
    ghost const g: Arities
    /** The analysed free variables of each formula node. */
    const free: seq<set<VarId>>
    var env: Env
    var memo: map<(nat, Env), bool>

    ghost predicate Valid()
      reads this`memo
    {
      && c.allow && GoodArena(a, rk) && TypedInstance(g, c)
      && |free| == |a.formulas| && (forall id | 0 <= id < |free| :: free[id] == FreeF(TreeF(a, rk, id)))
      && MemoTrue(a, rk, c, memo)
    }

    /** Arms the evaluator: the analysis runs over the whole arena and the memo starts empty. */
    constructor (nodes: Nodes, ctx: Ctx, ghost ranks: Ranks, ghost arities: Arities)
      requires ctx.allow && GoodArena(nodes, ranks) && TypedInstance(arities, ctx)
      ensures Valid() && a == nodes && c == ctx && rk == ranks && g == arities && env == map[]
    {
      a, c, rk, g, env, memo := nodes, ctx, ranks, arities, map[], map[];
      var analysis := new FreeVarsBuilder(nodes, ranks);
      analysis.Build();
      var slots := analysis.formulas;
      free := seq(|slots|, id requires 0 <= id < |slots| => if slots[id].Some? then slots[id].value else {});
    }

    /** A formula node's value: a remembered one if its free variables had these bindings before. */
    method EvalFormula(id: nat) returns (v: bool)
      requires Valid() && id < |a.formulas| && ReadyF(g, env, TreeF(a, rk, id))
      modifies this
      ensures Valid() && env == old(env) && v == FVal(c, env, TreeF(a, rk, id))
      decreases rk.f[id], 4
    {
      ghost var f := TreeF(a, rk, id);
      var key := KeyOf(env, free[id]);
      KeyValue(c, env, f);
      if (id, key) in memo {
        assert Entry(a, rk, c, id, key, memo[(id, key)]);
        return memo[(id, key)];
      }
      v := EvalUncached(id);
      assert Entry(a, rk, c, id, key, v);
      memo := memo[(id, key) := v];
    }

    method EvalUncached(id: nat) returns (v: bool)
      requires Valid() && id < |a.formulas| && ReadyF(g, env, TreeF(a, rk, id))
      modifies this
      ensures Valid() && env == old(env) && v == FVal(c, env, TreeF(a, rk, id))
      decreases rk.f[id], 3
    {
      hide MemoTrue, TypedEnv;
      ghost var f := TreeF(a, rk, id);
      assert GoodF(a, rk, a.formulas[id], rk.f[id]);
      match a.formulas[id]
      case NConst(b) => v := b;
      case NLoopIs(s) => v := s == c.loopState;
      case NNot(x) =>
        var w := EvalFormula(x);
        AnyPolarity(c, env, false, [], TreeF(a, rk, x));
        v := !w;
      case NAnd(parts) => v := EvalParts(id, parts, true);
      case NOr(parts) => v := EvalParts(id, parts, false);
      case NImplies(x, y) =>
        var p := EvalFormula(x);
        var q := EvalFormula(y);
        v := !p || q;
      case NIff(x, y) =>
        var p := EvalFormula(x);
        var q := EvalFormula(y);
        v := p == q;
      case NRelCompare(_, _, _) => v := EvalTest(id);
      case NIntCompare(_, _, _) => v := EvalTest(id);
      case NMultTest(_, _) => v := EvalTest(id);
      case NQuant(kind, x, bound, body) => v := EvalQuant(id, kind, x, bound, body);
    }

    /** Comparisons and multiplicity tests. */
    method EvalTest(id: nat) returns (v: bool)
      requires Valid() && id < |a.formulas| && ReadyF(g, env, TreeF(a, rk, id))
      requires a.formulas[id].NRelCompare? || a.formulas[id].NIntCompare? || a.formulas[id].NMultTest?
      modifies this
      ensures Valid() && env == old(env) && v == FVal(c, env, TreeF(a, rk, id))
      decreases rk.f[id], 2
    {
      hide MemoTrue, TypedEnv;
      assert GoodF(a, rk, a.formulas[id], rk.f[id]);
      match a.formulas[id]
      case NRelCompare(op, x, y) =>
        var p := EvalRel(x);
        var q := EvalRel(y);
        v := CompareSets(op, p, q);
      case NIntCompare(op, x, y) =>
        var p := EvalInt(x);
        var q := EvalInt(y);
        v := CompareInts(op, p.0, q.0);
      case NMultTest(test, e) =>
        var m := EvalRel(e);
        v := TestHolds(test, m);
    }

    /** Every operand is evaluated, whatever the earlier ones gave. */
    method EvalParts(id: nat, parts: seq<nat>, conjoin: bool) returns (v: bool)
      requires Valid() && id < |a.formulas| && a.formulas[id] == (if conjoin then NAnd(parts) else NOr(parts))
      requires ReadyF(g, env, TreeF(a, rk, id))
      modifies this
      ensures Valid() && env == old(env) && v == FVal(c, env, TreeF(a, rk, id))
      decreases rk.f[id], 2
    {
      hide MemoTrue, ReadyF, TypedFormula, OrderedF;
      ghost var f := TreeF(a, rk, id);
      assert GoodF(a, rk, a.formulas[id], rk.f[id]);
      ghost var env0 := env;
      v := conjoin;
      var k := 0;
      while k < |parts|
        invariant k <= |parts| && Valid() && env == env0
        invariant v <==> if conjoin then forall j | 0 <= j < k :: FVal(c, env0, f.parts[j]) else exists j | 0 <= j < k :: FVal(c, env0, f.parts[j])
      {
        assert BelowF(a, rk, parts[k], rk.f[id]);
        PartReady(g, env, f, k);
        var w := EvalFormula(parts[k]);
        v := if conjoin then v && w else v || w;
        k := k + 1;
      }
    }

    /** Grounds a quantifier over its bound's tuples, restoring the variable after each. */
    method EvalQuant(id: nat, kind: QuantKind, x: VarId, bound: nat, body: nat) returns (v: bool)
      requires Valid() && id < |a.formulas| && a.formulas[id] == NQuant(kind, x, bound, body)
      requires ReadyF(g, env, TreeF(a, rk, id))
      modifies this
      ensures Valid() && env == old(env) && v == FVal(c, env, TreeF(a, rk, id))
      decreases rk.f[id], 2
    {
      hide MemoTrue, TypedEnv, ReadyF, FVal, QuantSoFar, TypedFormula;
      ghost var f := TreeF(a, rk, id);
      assert GoodF(a, rk, a.formulas[id], rk.f[id]);
      ghost var env0 := env;
      BoundReady(g, env, f);
      var range := EvalRel(bound);
      v := kind == QAll;
      var rest := range;
      NothingGrounded(c, env0, f, range - rest, v);
      while rest != {}
        invariant rest <= range && Valid() && env == env0 && QuantSoFar(c, env0, f, range - rest, v)
        decreases |rest|
      {
        var t :| t in rest;
        BodyReady(g, c, env0, f, t);
        var saved := env;
        env := env[x := t];
        var w := EvalFormula(body);
        env := saved;
        GroundOne(c, env0, f, range - rest, v, t, w);
        assert range - (rest - {t}) == (range - rest) + {t};
        rest := rest - {t};
        v := if kind == QAll then v && w else v || w;
      }
      assert range - rest == range;
      AllGrounded(c, env0, f, range, v);
    }

    method EvalRel(id: nat) returns (s: TupleSet)
      requires Valid() && id < |a.rels| && ReadyR(g, env, TreeR(a, rk, id))
      modifies this
      ensures Valid() && env == old(env) && s == RVal(c, env, TreeR(a, rk, id))
      decreases rk.r[id], 3
    {
      hide MemoTrue, TypedEnv;
      ghost var r := TreeR(a, rk, id);
      assert GoodR(a, rk, a.rels[id], rk.r[id]);
      match a.rels[id]
      case NRelation(rel) => s := RelationValue(c, rel);
      case NVar(v) => s := VarValue(env, v);
      case NRConst(k) => s := ConstValue(c, k);
      case NRBin(op, x, y) =>
        var p := EvalRel(x);
        var q := EvalRel(y);
        s := RelBinary(op, p, q);
      case NRUn(op, e) =>
        var p := EvalRel(e);
        RelArity(g, c, env, true, [], TreeR(a, rk, e));
        s := RelUnary(c, op, p);
      case NRIte(cond, x, y) =>
        var b := EvalFormula(cond);
        if b { s := EvalRel(x); } else { s := EvalRel(y); }
      case NComprehension(decls, body) =>
        StartReady(g, env, r);
        s := ComprehensionRec(id, decls, body, 0, []);
      case NIntToAtom(ie) =>
        var n := EvalInt(ie);
        s := IntAtomSet(c.tr, n.0);
    }

    /** The tuples contributed from declaration `k` on, after `prefix`. */
    method ComprehensionRec(id: nat, decls: seq<NDecl>, body: nat, k: nat, prefix: Tuple) returns (out: TupleSet)
      requires Valid() && id < |a.rels| && a.rels[id] == NComprehension(decls, body) && k <= |decls|
      requires ReadyFrom(g, env, TreeR(a, rk, id), k)
      modifies this
      ensures Valid() && env == old(env) && out == EvalDecls(c, env, true, [], TreeR(a, rk, id), k, prefix)
      decreases rk.r[id], 2, |decls| - k
    {
      hide MemoTrue, TypedEnv, ReadyFrom, FVal, CollectedSoFar;
      ghost var r := TreeR(a, rk, id);
      assert GoodR(a, rk, a.rels[id], rk.r[id]);
      DeclReady(g, env, r, k);
      out := {};
      if k == |decls| {
        var b := EvalFormula(body);
        if b { out := {prefix}; }
        LastDecl(c, env, r, prefix);
        return;
      }
      assert BelowR(a, rk, decls[k].bound, rk.r[id]);
      ghost var env0 := env;
      var range := EvalRel(decls[k].bound);
      var rest := range;
      NothingCollected(c, env0, r, k, prefix, range - rest);
      while rest != {}
        invariant rest <= range && Valid() && env == env0 && CollectedSoFar(c, env0, r, k, prefix, range - rest, out)
        decreases |rest|
      {
        var t :| t in rest;
        NextReady(g, c, env0, r, k, t);
        var saved := env;
        env := env[decls[k].v := t];
        var more := ComprehensionRec(id, decls, body, k + 1, prefix + t);
        env := saved;
        CollectOneMore(c, env0, r, k, prefix, range - rest, out, t, more);
        assert range - (rest - {t}) == (range - rest) + {t};
        rest := rest - {t};
        out := out + more;
      }
      assert range - rest == range;
      AllCollected(c, env0, r, k, prefix, range, out);
    }

    method EvalInt(id: nat) returns (n: Flagged)
      requires Valid() && id < |a.ints| && ReadyI(g, env, TreeI(a, rk, id))
      modifies this
      ensures Valid() && env == old(env) && n == IVal(c, env, TreeI(a, rk, id))
      decreases rk.i[id], 3
    {
      hide MemoTrue, TypedEnv, FreeF;
      assert GoodI(a, rk, a.ints[id], rk.i[id]);
      match a.ints[id]
      case NIConst(k) => n := (WrapSigned(k, c.tr.bw), ConstOverflows(k, c.tr.bw));
      case NCard(r) =>
        var m := EvalRel(r);
        n := (WrapSigned(|m|, c.tr.bw), |m| > IntMax(c.tr.bw));
      case NAtomToInt(r) =>
        var m := EvalRel(r);
        n := SetToInt(c.tr, m);
      case NNeg(i) =>
        n := EvalInt(i);
        n := NegateFlagged(n, c.tr.bw);
      case NIBin(op, x, y) =>
        var p := EvalInt(x);
        var q := EvalInt(y);
        n := BinopFlagged(op, p, q, c.tr.bw);
      case NSum(v, bound, body) => n := EvalSummed(id, v, bound, body);
      case NIIte(cond, x, y) =>
        var b := EvalFormula(cond);
        if b { n := EvalInt(x); } else { n := EvalInt(y); }
    }

    /** The chained sum over the bound's tuples in order. */
    method EvalSummed(id: nat, x: VarId, bound: nat, body: nat) returns (acc: Flagged)
      requires Valid() && id < |a.ints| && a.ints[id] == NSum(x, bound, body) && ReadyI(g, env, TreeI(a, rk, id))
      modifies this
      ensures Valid() && env == old(env) && acc == IVal(c, env, TreeI(a, rk, id))
      decreases rk.i[id], 2
    {
      hide MemoTrue, TypedEnv, IVal, EvalSum, RVal;
      ghost var i := TreeI(a, rk, id);
      assert GoodI(a, rk, a.ints[id], rk.i[id]);
      ghost var env0 := env;
      var range := EvalRel(bound);
      var ts := Sorted(range);
      acc := (0, false);
      SumUnfolds(c, env0, i);
      var k := 0;
      while k < |ts|
        invariant k <= |ts| && Valid() && env == env0
        invariant EvalSum(c, env0, true, [], i, ts[k..], acc) == IVal(c, env0, i)
      {
        var t := ts[k];
        assert t in ts;
        SumBodyReady(g, c, env0, i, t);
        var saved := env;
        env := env[x := t];
        var w := EvalInt(body);
        env := saved;
        SumStep(c, env0, i, ts[k..], acc);
        assert ts[k..][0] == t && ts[k..][1..] == ts[k + 1..];
        acc := AddFlagged(acc, w, c.tr.bw);
        k := k + 1;
      }
      SumStep(c, env0, i, [], acc);
      assert ts[k..] == [];
    }
  }

  lemma StartReady(g: Arities, env: Env, r: RelExpr)
    requires r.Comprehension? && ReadyR(g, env, r)
    ensures ReadyFrom(g, env, r, 0)
  {
    assert DeclVars(r.decls[..0]) == {};
  }

  // ------------------------------------------------------------------ grounding over part of a range

  lemma BoundReady(g: Arities, env: Env, f: Formula)
    requires f.Quant? && ReadyF(g, env, f)
    ensures ReadyR(g, env, f.bound)
  {
  }

  ghost predicate QuantSoFar(c: Ctx, env: Env, f: Formula, done: TupleSet, v: bool)
    requires f.Quant?
  {
    v <==> if f.kind == QAll then forall t | t in done :: FVal(c, env[f.v := t], f.body)
           else exists t | t in done :: FVal(c, env[f.v := t], f.body)
  }

  lemma NothingGrounded(c: Ctx, env: Env, f: Formula, done: TupleSet, v: bool)
    requires f.Quant? && done == {} && v == (f.kind == QAll)
    ensures QuantSoFar(c, env, f, done, v)
  {
  }

  lemma GroundOne(c: Ctx, env: Env, f: Formula, done: TupleSet, v: bool, t: Tuple, w: bool)
    requires f.Quant? && QuantSoFar(c, env, f, done, v) && w == FVal(c, env[f.v := t], f.body)
    ensures QuantSoFar(c, env, f, done + {t}, if f.kind == QAll then v && w else v || w)
  {
    hide FVal;
  }

  lemma AllGrounded(c: Ctx, env: Env, f: Formula, range: TupleSet, v: bool)
    requires c.allow && f.Quant? && range == RVal(c, env, f.bound) && QuantSoFar(c, env, f, range, v)
    ensures v == FVal(c, env, f)
  {
    hide FVal;
    QuantValue(c, env, f);
  }

  ghost predicate CollectedSoFar(c: Ctx, env: Env, r: RelExpr, k: nat, prefix: Tuple, done: TupleSet, out: TupleSet)
    requires r.Comprehension? && k < |r.decls|
  {
    forall u :: u in out <==> exists t :: t in done && u in EvalBinding(c, env, true, [], r, k, prefix, t)
  }

  lemma NothingCollected(c: Ctx, env: Env, r: RelExpr, k: nat, prefix: Tuple, done: TupleSet)
    requires r.Comprehension? && k < |r.decls| && done == {}
    ensures CollectedSoFar(c, env, r, k, prefix, done, {})
  {
  }

  lemma CollectOneMore(c: Ctx, env: Env, r: RelExpr, k: nat, prefix: Tuple, done: TupleSet, out: TupleSet, t: Tuple, more: TupleSet)
    requires r.Comprehension? && k < |r.decls| && CollectedSoFar(c, env, r, k, prefix, done, out)
    requires more == EvalDecls(c, env[r.decls[k].v := t], true, [], r, k + 1, prefix + t)
    ensures CollectedSoFar(c, env, r, k, prefix, done + {t}, out + more)
  {
    assert more == EvalBinding(c, env, true, [], r, k, prefix, t);
    hide EvalBinding, EvalDecls;
  }

  lemma AllCollected(c: Ctx, env: Env, r: RelExpr, k: nat, prefix: Tuple, range: TupleSet, out: TupleSet)
    requires r.Comprehension? && k < |r.decls| && range == RVal(c, env, r.decls[k].bound)
    requires CollectedSoFar(c, env, r, k, prefix, range, out)
    ensures out == EvalDecls(c, env, true, [], r, k, prefix)
  {
    hide EvalBinding, EvalDecls;
    forall u ensures u in out <==> u in EvalDecls(c, env, true, [], r, k, prefix) { InDecls(c, env, true, [], r, k, prefix, u); }
  }

  lemma LastDecl(c: Ctx, env: Env, r: RelExpr, prefix: Tuple)
    requires r.Comprehension?
    ensures EvalDecls(c, env, true, [], r, |r.decls|, prefix) == if FVal(c, env, r.body) then {prefix} else {}
  {
  }
}
