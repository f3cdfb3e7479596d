/** Where nothing is skolemised, lowering is exact: the lowered node evaluates to the lexical meaning of
    the source under every valuation of its variables. */
module LoweringExact {
  import opened Wrappers
  import opened Algebra
  import opened Ir
  import opened Folder
  import opened Plain
  import opened Freshness
  import opened Surface
  import opened Capture
  import opened AbstractUpper
  import opened Lowering
  import opened LoweringFacts
  import opened LoweringMeaning
  import Semantics

  /** Every part of the formula is lowered with skolemisation blocked. */
  predicate Settled(pol: Pol, f: SFormula) {
    pol.blocked
    || match f
       case FBlock(parts) => !pol.positive && |parts| >= 2
       case FAnd(_, _) => !pol.positive
       case FOr(_, _) => pol.positive
       case FImplies(_, _) => pol.positive
       case FQuant(q, _, _) => q == QuOne || q == QuLone || !EffectiveExistential(q, pol)
       case FNot(_) => false
       case FLet(_, _) => false
       case FName(_, _) => false
       case _ => true
  }

  lemma Next(k: Tables, b: Inst, st: LState, i: Inst, env: Env, bs: Binders, s: SEnv, st': LState)
    requires Setting(k, b, st, i, env, bs, s) && Ready(k, st', bs) && Grows(st, st')
    ensures Setting(k, b, st', i, env, bs, s)
  {
  }

  // ------------------------------------------------------------------ groups of quantified variables

  /** A declaration bound to quantified variables admits exactly the source's draws, and binds every name
      to its drawn tuple. */
  lemma VarsExact(b: Inst, st: LState, i: Inst, env: Env, bs: Binders, s: SEnv, d: SDecl, bound: RelExpr, ts: seq<Tuple>, k: Tables)
    requires Setting(k, b, st, i, env, bs, s) && CleanRel(bound, st) && |ts| == |d.names|
    ensures var fo := VarDecls(st.nextVar, |ts|, bound);
      var env' := BindEnv(env, fo, ts);
      && (InBounds(i, env, fo, ts) && AllHold(i, env', GroupDisjoint(d.disj, VarRange(st.nextVar, |ts|)))
          <==> ts in Draws(Value(i, env, bound), |ts|, d.disj))
      && Corr(i, env', PushVars(bs, d.names, st.nextVar), s + Bind(d.names, Singletons(ts)))
      && SameEnv(env, env', st.nextVar)
      && (forall v | v in env' :: v < st.nextVar + |ts|)
  {
    hide LeavesFormula, Holds, Plain.Value;
    var env' := BindEnv(env, VarDecls(st.nextVar, |ts|, bound), ts);
    VarGroupEnv(env, st.nextVar, |ts|, bound, ts);
    DrawsExact(i, env, env', st, bound, d.disj, ts);
    CorrFrame(k, st, i, env, i, env', bs, s);
    CorrPushVars(i, env', bs, s, d.names, st.nextVar, ts);
  }

  lemma DrawsExact(i: Inst, env: Env, env': Env, st: LState, bound: RelExpr, disj: bool, ts: seq<Tuple>)
    requires CleanRel(bound, st) && BoundTo(env', st.nextVar, ts)
    ensures InBounds(i, env, VarDecls(st.nextVar, |ts|, bound), ts) && AllHold(i, env', GroupDisjoint(disj, VarRange(st.nextVar, |ts|)))
            <==> ts in Draws(Value(i, env, bound), |ts|, disj)
  {
    hide Plain.Value, Holds, AllHold, InBounds, GroupDisjoint, VarDecls, VarRange;
    var n := |ts|;
    VarGroupBinds(i, env, st.nextVar, n, bound, ts, st.nextVar, st.nextRel);
    VarGroupValues(i, env', st.nextVar, n, ts);
    GroupDisjointHolds(i, env', disj, VarRange(st.nextVar, n));
    SingletonsDisjoint(ts);
  }

  lemma SingletonsDisjoint(ts: seq<Tuple>)
    ensures PairwiseDisjoint(Singletons(ts)) <==> forall a, b | 0 <= a < b < |ts| :: ts[a] != ts[b]
  {
    var vs := Singletons(ts);
    if PairwiseDisjoint(vs) {
      forall a, b | 0 <= a < b < |ts| ensures ts[a] != ts[b] {
        var both: TupleSet := vs[a] * vs[b];
        assert ts[a] in vs[a] && ts[a] !in both;
      }
    }
  }

  lemma InChoices(b: Inst, s: SEnv, ds: seq<SDecl>, g: seq<Tuple>, rest: seq<Tuple>)
    requires ds != [] && ds[0].bound.Each? && |g| == |ds[0].names|
    ensures g + rest in Choices(b, s, ds) <==>
            g in Draws(SrcValue(b, s, ds[0].bound.e), |g|, ds[0].disj) && rest in Choices(b, s + Bind(ds[0].names, Singletons(g)), ds[1..])
  {
    hide Holds, SrcValue;
    if g + rest in Choices(b, s, ds) {
      var group := Draws(SrcValue(b, s, ds[0].bound.e), |ds[0].names|, ds[0].disj);
      var g', rest' :| g' in group && rest' in Choices(b, s + Bind(ds[0].names, Singletons(g')), ds[1..]) && g + rest == g' + rest';
      assert g == (g + rest)[..|g|] == g' && rest == (g + rest)[|g|..] == rest';
    }
  }

  /** Binding a list of quantified variables one declaration after another. */
  lemma JoinBindings(i: Inst, env: Env, a: Bound, rest: Bound, st: LState, ta: seq<Tuple>, tb: seq<Tuple>)
    requires |ta| == |a.fo| && |tb| == |rest.fo|
    requires CleanAll(a.disj, a.st) && Ascending(rest.fo, a.st.nextVar, st)
    ensures var env1 := BindEnv(env, a.fo, ta);
      var env2 := BindEnv(env1, rest.fo, tb);
      && BindEnv(env, a.fo + rest.fo, ta + tb) == env2
      && (InBounds(i, env, a.fo + rest.fo, ta + tb) <==> InBounds(i, env, a.fo, ta) && InBounds(i, env1, rest.fo, tb))
      && SameEnv(env1, env2, a.st.nextVar)
      && (AllHold(i, env2, a.disj + rest.disj) <==> AllHold(i, env1, a.disj) && AllHold(i, env2, rest.disj))
  {
    BindEnvJoin(env, a.fo, rest.fo, ta, tb);
    BindsJoin(i, env, a.fo, rest.fo, ta, tb);
    var env1 := BindEnv(env, a.fo, ta);
    var env2 := BindEnv(env1, rest.fo, tb);
    BindEnvSame(env1, rest.fo, tb, a.st.nextVar);
    AllHoldFrame(i, env1, i, env2, a.disj, a.st);
    AllHoldJoin(i, env2, a.disj, rest.disj);
  }

  // ------------------------------------------------------------------ the exactness theorem

  lemma {:induction false} FormulaExact(k: Tables, st: LState, bs: Binders, pol: Pol, f: SFormula, b: Inst, i: Inst, env: Env, s: SEnv)
    requires Setting(k, b, st, i, env, bs, s) && LeavesFormula(k, f) && Settled(pol, f)
    requires LowerFormula(k, st, bs, pol, f).Some?
    ensures Holds(i, env, LowerFormula(k, st, bs, pol, f).value.0) == SrcHolds(b, s, f)
    decreases f, 1
  {
    hide LowerRel, ValidBinders, SrcValue, BindDecl, Corr;
    match f
    case FBlock(parts) => BlockExact(k, st, bs, pol, f, b, i, env, s);
    case FCompare(_, _, _, _) => CompareExact(k, st, bs, pol, f, b, i, env, s);
    case FNot(g) => FormulaExact(k, st, bs, Flipped(pol), g, b, i, env, s);
    case FAnd(_, _) => BinaryExact(k, st, bs, pol, f, b, i, env, s);
    case FOr(_, _) => BinaryExact(k, st, bs, pol, f, b, i, env, s);
    case FImplies(_, _) => BinaryExact(k, st, bs, pol, f, b, i, env, s);
    case FIff(_, _) => BinaryExact(k, st, bs, pol, f, b, i, env, s);
    case FIte(_, _, _) => IteExact(k, st, bs, pol, f, b, i, env, s);
    case FTest(test, e) => ExprExact(k, st, bs, pol, e, b, i, env, s);
    case FQuant(quant, decls, body) => QuantExact(k, st, bs, pol, f, b, i, env, s);
    case FLet(_, _) => ScopeExact(k, st, bs, pol, f, b, i, env, s);
    case FName(_, _) => ScopeExact(k, st, bs, pol, f, b, i, env, s);
  }

  lemma {:induction false} CompareExact(k: Tables, st: LState, bs: Binders, pol: Pol, f: SFormula, b: Inst, i: Inst, env: Env, s: SEnv)
    requires f.FCompare?
    requires Setting(k, b, st, i, env, bs, s) && LeavesFormula(k, f)
    requires LowerFormula(k, st, bs, pol, f).Some?
    ensures Holds(i, env, LowerFormula(k, st, bs, pol, f).value.0) == SrcHolds(b, s, f)
    decreases f, 0, 1
  {
    hide LowerRel, SrcValue, BindDecl, Plain.Value;
    ExprExact(k, st, bs, pol, f.l, b, i, env, s);
    ExprFacts(k, st, bs, pol, f.l);
    var st1 := LowerRel(k, st, bs, pol, f.l).value.1;
    Next(k, b, st, i, env, bs, s, st1);
    ExprExact(k, st1, bs, pol, f.r, b, i, env, s);
  }

  /** Two subformulas of one owner, lowered one after the other, both blocked. */
  lemma {:induction false} TwoExact(k: Tables, st: LState, bs: Binders, p: Pol, q: Pol, l: SFormula, r: SFormula, owner: SFormula, b: Inst, i: Inst, env: Env, s: SEnv)
    requires l < owner && r < owner && p.blocked && q.blocked
    requires Setting(k, b, st, i, env, bs, s) && LeavesFormula(k, l) && LeavesFormula(k, r)
    requires LowerFormula(k, st, bs, p, l).Some?
    requires LowerFormula(k, LowerFormula(k, st, bs, p, l).value.1, bs, q, r).Some?
    ensures var x := LowerFormula(k, st, bs, p, l).value;
      && Holds(i, env, x.0) == SrcHolds(b, s, l)
      && Holds(i, env, LowerFormula(k, x.1, bs, q, r).value.0) == SrcHolds(b, s, r)
    decreases owner, 0, 0
  {
    hide LowerFormula, SrcHolds, Holds, Plain.Value;
    FormulaExact(k, st, bs, p, l, b, i, env, s);
    FormulaFacts(k, st, bs, p, l);
    var st1 := LowerFormula(k, st, bs, p, l).value.1;
    Next(k, b, st, i, env, bs, s, st1);
    FormulaExact(k, st1, bs, q, r, b, i, env, s);
  }

  lemma {:induction false} BinaryExact(k: Tables, st: LState, bs: Binders, pol: Pol, f: SFormula, b: Inst, i: Inst, env: Env, s: SEnv)
    requires Binary(f)
    requires Setting(k, b, st, i, env, bs, s) && LeavesFormula(k, f) && Settled(pol, f)
    requires LowerFormula(k, st, bs, pol, f).Some?
    ensures Holds(i, env, LowerFormula(k, st, bs, pol, f).value.0) == SrcHolds(b, s, f)
    decreases f, 0, 1
  {
    hide LowerFormula, LowerRel;
    BinaryUnfolds(k, st, bs, pol, f);
    var p, q := LeftPol(f, pol), RightPol(f, pol);
    TwoExact(k, st, bs, p, q, f.left, f.right, f, b, i, env, s);
    var x := LowerFormula(k, st, bs, p, f.left).value;
    PairHolds(i, env, x.0, LowerFormula(k, x.1, bs, q, f.right).value.0);
  }

  lemma PairHolds(i: Inst, env: Env, g: Formula, h: Formula)
    ensures Holds(i, env, And([g, h])) == (Holds(i, env, g) && Holds(i, env, h))
    ensures Holds(i, env, Or([g, h])) == (Holds(i, env, g) || Holds(i, env, h))
  {
    var parts := [g, h];
    assert parts[0] == g && parts[1] == h;
  }

  lemma {:induction false} IteExact(k: Tables, st: LState, bs: Binders, pol: Pol, f: SFormula, b: Inst, i: Inst, env: Env, s: SEnv)
    requires f.FIte?
    requires Setting(k, b, st, i, env, bs, s) && LeavesFormula(k, f)
    requires LowerFormula(k, st, bs, pol, f).Some?
    ensures Holds(i, env, LowerFormula(k, st, bs, pol, f).value.0) == SrcHolds(b, s, f)
    decreases f, 0, 1
  {
    hide BindDecl;
    FormulaExact(k, st, bs, Blocked(pol), f.cond, b, i, env, s);
    FormulaFacts(k, st, bs, Blocked(pol), f.cond);
    var c := LowerFormula(k, st, bs, Blocked(pol), f.cond).value;
    Next(k, b, st, i, env, bs, s, c.1);
    TwoExact(k, c.1, bs, Blocked(pol), Blocked(pol), f.t, f.els, f, b, i, env, s);
    var x := LowerFormula(k, c.1, bs, Blocked(pol), f.t).value;
    var y := LowerFormula(k, x.1, bs, Blocked(pol), f.els).value;
    PairHolds(i, env, c.0, x.0);
    PairHolds(i, env, Not(c.0), y.0);
    PairHolds(i, env, And([c.0, x.0]), And([Not(c.0), y.0]));
  }

  lemma {:induction false} BlockExact(k: Tables, st: LState, bs: Binders, pol: Pol, f: SFormula, b: Inst, i: Inst, env: Env, s: SEnv)
    requires f.FBlock? && Settled(pol, f)
    requires Setting(k, b, st, i, env, bs, s) && LeavesFormula(k, f)
    requires LowerFormula(k, st, bs, pol, f).Some?
    ensures Holds(i, env, LowerFormula(k, st, bs, pol, f).value.0) == SrcHolds(b, s, f)
    decreases f, 0, 1
  {
    hide LowerRel, BindDecl, Corr;
    var p := BlockedIf(pol, !pol.positive && |f.parts| >= 2);
    PartsExact(k, st, bs, p, f.parts, b, i, env, s);
    ConjoinHolds(i, env, LowerParts(k, st, bs, p, f.parts).value.0);
  }

  lemma {:induction false} PartsExact(k: Tables, st: LState, bs: Binders, pol: Pol, parts: seq<SFormula>, b: Inst, i: Inst, env: Env, s: SEnv)
    requires pol.blocked
    requires Setting(k, b, st, i, env, bs, s) && (forall j | 0 <= j < |parts| :: LeavesFormula(k, parts[j]))
    requires LowerParts(k, st, bs, pol, parts).Some?
    ensures AllHold(i, env, LowerParts(k, st, bs, pol, parts).value.0) <==> forall j | 0 <= j < |parts| :: SrcHolds(b, s, parts[j])
    decreases parts, 1
  {
    hide LowerFormula, SrcHolds, Holds, Plain.Value;
    if parts != [] {
      FormulaExact(k, st, bs, pol, parts[0], b, i, env, s);
      FormulaFacts(k, st, bs, pol, parts[0]);
      var x := LowerFormula(k, st, bs, pol, parts[0]).value;
      Next(k, b, st, i, env, bs, s, x.1);
      PartsExact(k, x.1, bs, pol, parts[1..], b, i, env, s);
      var gs := LowerParts(k, x.1, bs, pol, parts[1..]).value.0;
      AllHoldJoin(i, env, [x.0], gs);
      assert AllHold(i, env, [x.0]) <==> Holds(i, env, x.0) by { assert [x.0][0] == x.0; }
      AllParts(b, s, parts);
    }
  }

  lemma AllParts(b: Inst, s: SEnv, parts: seq<SFormula>)
    requires parts != []
    ensures (forall j | 0 <= j < |parts| :: SrcHolds(b, s, parts[j]))
            <==> SrcHolds(b, s, parts[0]) && forall j | 0 <= j < |parts[1..]| :: SrcHolds(b, s, parts[1..][j])
  {
    hide LowerFormula, SrcHolds;
    if SrcHolds(b, s, parts[0]) && forall j | 0 <= j < |parts[1..]| :: SrcHolds(b, s, parts[1..][j]) {
      forall j | 0 <= j < |parts| ensures SrcHolds(b, s, parts[j]) {
        if j > 0 { assert parts[j] == parts[1..][j - 1]; }
      }
    }
  }

  lemma {:induction false} ScopeExact(k: Tables, st: LState, bs: Binders, pol: Pol, f: SFormula, b: Inst, i: Inst, env: Env, s: SEnv)
    requires (f.FLet? || f.FName?) && pol.blocked
    requires Setting(k, b, st, i, env, bs, s) && LeavesFormula(k, f)
    requires LowerFormula(k, st, bs, pol, f).Some?
    ensures Holds(i, env, LowerFormula(k, st, bs, pol, f).value.0) == SrcHolds(b, s, f)
    decreases f, 0, 1
  {
    hide LowerRel, Holds, BindDecl;
    match f
    case FLet(lets, body) =>
      LetsExact(k, st, bs, pol, lets, b, i, env, s);
      var p := PushLets(k, st, bs, pol, lets).value;
      FormulaExact(k, p.1, p.0, pol, body, b, i, env, SrcLets(b, s, lets));
    case FName(x, target) =>
      var n := NameSetting(k, st, bs, b, i, env, s, x, target);
      FormulaExact(k, st, bs[..n], pol, target, b, i, env, s[..n]);
  }

  /** A use of a formula-valued `let` finds, on the truncated stack, the environment it was bound in. */
  lemma NameSetting(k: Tables, st: LState, bs: Binders, b: Inst, i: Inst, env: Env, s: SEnv, x: string, target: SFormula) returns (n: nat)
    requires Setting(k, b, st, i, env, bs, s)
    requires Find(bs, x).Some? && bs[Find(bs, x).value].1.BFormula? && bs[Find(bs, x).value].1.target == target
    ensures n == Find(bs, x).value && n == bs[n].1.depth && Find(s, x) == Some(n) && s[n].1 == VFormula(target)
    ensures Setting(k, b, st, i, env, bs[..n], s[..n])
  {
    hide LeavesFormula, Holds, Plain.Value;
    n := Find(bs, x).value;
    FindSame(bs, s, x);
    assert ValidBinding(k, bs[n].1, n, st) && Denotes(i, env, bs[n].1, s[n].1);
  }

  lemma {:induction false} LetsExact(k: Tables, st: LState, bs: Binders, pol: Pol, lets: seq<SLet>, b: Inst, i: Inst, env: Env, s: SEnv)
    requires Setting(k, b, st, i, env, bs, s) && LeavesLets(k, lets)
    requires PushLets(k, st, bs, pol, lets).Some?
    ensures var (bs', st') := PushLets(k, st, bs, pol, lets).value;
      Setting(k, b, st', i, env, bs', SrcLets(b, s, lets))
    decreases lets, 1
  {
    hide LowerRel, LeavesFormula, SrcValue, Plain.Value;
    if lets != [] {
      assert LeavesLets(k, lets[1..]);
      match lets[0]
      case LetRel(x, e) =>
        ExprExact(k, st, bs, pol, e, b, i, env, s);
        ExprFacts(k, st, bs, pol, e);
        var r := LowerRel(k, st, bs, pol, e).value;
        CorrPush(i, env, bs, s, (x, BExpr(r.0)), VRel(SrcValue(b, s, e)));
        LetsExact(k, r.1, bs + [(x, BExpr(r.0))], pol, lets[1..], b, i, env, s + [(x, VRel(SrcValue(b, s, e)))]);
      case LetFormula(x, g) =>
        CorrPush(i, env, bs, s, (x, BFormula(g, |bs|)), VFormula(g));
        LetsExact(k, st, bs + [(x, BFormula(g, |bs|))], pol, lets[1..], b, i, env, s + [(x, VFormula(g))]);
    }
  }

  lemma {:induction false} ExprExact(k: Tables, st: LState, bs: Binders, pol: Pol, e: SExpr, b: Inst, i: Inst, env: Env, s: SEnv)
    requires Setting(k, b, st, i, env, bs, s) && LeavesExpr(k, e)
    requires LowerRel(k, st, bs, pol, e).Some?
    ensures Value(i, env, LowerRel(k, st, bs, pol, e).value.0) == SrcValue(b, s, e)
    decreases e, 1
  {
    hide LowerFormula, SrcHolds, BindDecl;
    match e
    case SLeaf(r) => RelFrame(b, i, map[], env, r, 0, k.nextRel);
    case SName(x) =>
      FindSame(bs, s, x);
      var n := Find(bs, x).value;
      assert Denotes(i, env, bs[n].1, s[n].1);
    case SBin(op, l, r) =>
      ExprExact(k, st, bs, pol, l, b, i, env, s);
      ExprFacts(k, st, bs, pol, l);
      var st1 := LowerRel(k, st, bs, pol, l).value.1;
      Next(k, b, st, i, env, bs, s, st1);
      ExprExact(k, st1, bs, pol, r, b, i, env, s);
    case SUn(op, g) => ExprExact(k, st, bs, pol, g, b, i, env, s);
    case SIte(_, _, _) => ChoiceExact(k, st, bs, pol, e, b, i, env, s);
    case SCompr(_, _) => ComprehensionExact(k, st, bs, pol, e, b, i, env, s);
  }

  lemma {:induction false} ChoiceExact(k: Tables, st: LState, bs: Binders, pol: Pol, e: SExpr, b: Inst, i: Inst, env: Env, s: SEnv)
    requires e.SIte?
    requires Setting(k, b, st, i, env, bs, s) && LeavesExpr(k, e)
    requires LowerRel(k, st, bs, pol, e).Some?
    ensures Value(i, env, LowerRel(k, st, bs, pol, e).value.0) == SrcValue(b, s, e)
    decreases e, 0
  {
    hide LowerFormula, Holds, SrcHolds, BindDecl;
    FormulaExact(k, st, bs, Blocked(pol), e.cond, b, i, env, s);
    FormulaFacts(k, st, bs, Blocked(pol), e.cond);
    var st1 := LowerFormula(k, st, bs, Blocked(pol), e.cond).value.1;
    Next(k, b, st, i, env, bs, s, st1);
    ExprExact(k, st1, bs, pol, e.t, b, i, env, s);
    ExprFacts(k, st1, bs, pol, e.t);
    var st2 := LowerRel(k, st1, bs, pol, e.t).value.1;
    Next(k, b, st1, i, env, bs, s, st2);
    ExprExact(k, st2, bs, pol, e.els, b, i, env, s);
  }

  // ------------------------------------------------------------------ declarations and their bodies

  predicate AllEach(ds: seq<SDecl>) {
    forall j | 0 <= j < |ds| :: ds[j].bound.Each?
  }

  /** Where skolemisation is denied a higher-order declaration is refused. */
  lemma {:induction false} DeniedEach(k: Tables, st: LState, bs: Binders, pol: Pol, ds: seq<SDecl>)
    requires BindDecls(k, st, bs, pol, ds, false).Some?
    ensures AllEach(ds)
    decreases |ds|
  {
    hide LowerFormula, LowerRel;
    if ds != [] {
      var a := BindDecl(k, st, bs, pol, ds[0], false).value;
      DeniedEach(k, a.st, a.bs, pol, ds[1..]);
      assert forall j | 0 < j < |ds| :: ds[j] == ds[1..][j - 1];
    }
  }

  /** Binding the variables within their guards is choosing tuples for the names. */
  ghost predicate Drawn(b: Inst, i: Inst, env: Env, s: SEnv, decls: seq<SDecl>, o: Bound, ts: seq<Tuple>) {
    && |o.fo| == |AllNames(decls)| == |ts|
    && (InBounds(i, env, o.fo, ts) && AllHold(i, BindEnv(env, o.fo, ts), o.disj) <==> ts in Choices(b, s, decls))
  }

  /** The environment and the source environment under one choice of tuples. */
  ghost predicate Chosen(k: Tables, b: Inst, i: Inst, env: Env, s: SEnv, decls: seq<SDecl>, o: Bound, ts: seq<Tuple>) {
    && Drawn(b, i, env, s, decls, o, ts)
    && Setting(k, b, o.st, i, BindEnv(env, o.fo, ts), o.bs, s + Bind(AllNames(decls), Singletons(ts)))
  }

  lemma {:induction false} ChoicesExact(k: Tables, st: LState, bs: Binders, pol: Pol, decls: seq<SDecl>, b: Inst, i: Inst, env: Env, s: SEnv, ts: seq<Tuple>)
    requires Setting(k, b, st, i, env, bs, s) && LeavesDecls(k, decls)
    requires BindDecls(k, st, bs, pol, decls, false).Some? && |ts| == |AllNames(decls)|
    ensures Chosen(k, b, i, env, s, decls, BindDecls(k, st, bs, pol, decls, false).value, ts)
    decreases decls, 1
  {
    if decls == [] {
      assert s + Bind([], Singletons(ts)) == s;
    } else {
      var d := decls[0];
      var n := |d.names|;
      ExprExact(k, st, bs, pol, d.bound.e, b, i, env, s);
      var a := BindDecl(k, st, bs, pol, d, false).value;
      var ta, tb := ts[..n], ts[n..];
      assert ts == ta + tb;
      DeclSetting(k, st, bs, pol, d, b, i, env, s, ta);
      var env1, s1 := BindEnv(env, a.fo, ta), s + Bind(d.names, Singletons(ta));
      assert LeavesDecls(k, decls[1..]);
      ChoicesExact(k, a.st, a.bs, pol, decls[1..], b, i, env1, s1, tb);
      DeclsFacts(k, a.st, a.bs, pol, decls[1..], false);
      ChosenJoin(k, b, i, env, s, decls, a, BindDecls(k, a.st, a.bs, pol, decls[1..], false).value, ta, tb);
    }
  }

  /** One declaration of quantified variables. */
  lemma DeclSetting(k: Tables, st: LState, bs: Binders, pol: Pol, d: SDecl, b: Inst, i: Inst, env: Env, s: SEnv, ts: seq<Tuple>)
    requires Setting(k, b, st, i, env, bs, s) && LeavesExpr(k, d.bound.e) && |ts| == |d.names|
    requires BindDecl(k, st, bs, pol, d, false).Some?
    requires Value(i, env, LowerRel(k, st, bs, pol, d.bound.e).value.0) == SrcValue(b, s, d.bound.e)
    ensures var a := BindDecl(k, st, bs, pol, d, false).value;
      && d.bound.Each? && BoundFacts(k, st, a, false) && |a.fo| == |ts|
      && (InBounds(i, env, a.fo, ts) && AllHold(i, BindEnv(env, a.fo, ts), a.disj)
          <==> ts in Draws(SrcValue(b, s, d.bound.e), |ts|, d.disj))
      && Setting(k, b, a.st, i, BindEnv(env, a.fo, ts), a.bs, s + Bind(d.names, Singletons(ts)))
  {
    hide LowerFormula;
    DeclFacts(k, st, bs, pol, d, false);
    ExprFacts(k, st, bs, pol, d.bound.e);
    var (bound, st1) := LowerRel(k, st, bs, pol, d.bound.e).value;
    Next(k, b, st, i, env, bs, s, st1);
    VarsExact(b, st1, i, env, bs, s, d, bound, ts, k);
    assert BindDecl(k, st, bs, pol, d, false).value.fo == VarDecls(st1.nextVar, |ts|, bound);
  }

  lemma ChosenJoin(k: Tables, b: Inst, i: Inst, env: Env, s: SEnv, decls: seq<SDecl>, a: Bound, rest: Bound, ta: seq<Tuple>, tb: seq<Tuple>)
    requires decls != [] && decls[0].bound.Each? && |a.fo| == |decls[0].names| == |ta|
    requires CleanAll(a.disj, a.st) && Ascending(rest.fo, a.st.nextVar, rest.st)
    requires InBounds(i, env, a.fo, ta) && AllHold(i, BindEnv(env, a.fo, ta), a.disj)
             <==> ta in Draws(SrcValue(b, s, decls[0].bound.e), |ta|, decls[0].disj)
    requires Chosen(k, b, i, BindEnv(env, a.fo, ta), s + Bind(decls[0].names, Singletons(ta)), decls[1..], rest, tb)
    ensures Chosen(k, b, i, env, s, decls, Bound(a.fo + rest.fo, a.disj + rest.disj, a.cons + rest.cons, rest.bs, rest.st), ta + tb)
  {
    JoinBindings(i, env, a, rest, rest.st, ta, tb);
    InChoices(b, s, decls, ta, tb);
    BindJoin(s, decls[0].names, AllNames(decls[1..]), ta, tb);
  }

  /** The lowered body under a binding means the source body under the same choice. */
  ghost predicate Matches(b: Inst, i: Inst, env: Env, s: SEnv, decls: seq<SDecl>, o: Bound, body: SFormula, g: Formula, ts: seq<Tuple>) {
    && Drawn(b, i, env, s, decls, o, ts)
    && Holds(i, BindEnv(env, o.fo, ts), g) == SrcHolds(b, s + Bind(AllNames(decls), Singletons(ts)), body)
  }

  ghost predicate Faithful(b: Inst, i: Inst, env: Env, s: SEnv, decls: seq<SDecl>, o: Bound, body: SFormula, g: Formula) {
    && |o.fo| == |AllNames(decls)|
    && forall ts: seq<Tuple> {:trigger Matches(b, i, env, s, decls, o, body, g, ts)} ::
         |ts| == |o.fo| ==> Matches(b, i, env, s, decls, o, body, g, ts)
  }

  lemma {:induction false} ComprehensionExact(k: Tables, st: LState, bs: Binders, pol: Pol, e: SExpr, b: Inst, i: Inst, env: Env, s: SEnv)
    requires e.SCompr?
    requires Setting(k, b, st, i, env, bs, s) && LeavesExpr(k, e)
    requires LowerRel(k, st, bs, pol, e).Some?
    ensures Value(i, env, LowerRel(k, st, bs, pol, e).value.0) == SrcValue(b, s, e)
    decreases e, 0
  {
    hide LowerFormula, SrcHolds, Holds, BindDecl, Corr;
    var o := BindDecls(k, st, bs, Blocked(pol), e.decls, false).value;
    var r := LowerFormula(k, o.st, o.bs, Blocked(pol), e.body).value;
    forall ts: seq<Tuple> | |ts| == |AllNames(e.decls)|
      ensures Matches(b, i, env, s, e.decls, o, e.body, r.0, ts)
    {
      ChoicesExact(k, st, bs, Blocked(pol), e.decls, b, i, env, s, ts);
      FormulaExact(k, o.st, o.bs, Blocked(pol), e.body, b, i, BindEnv(env, o.fo, ts), s + Bind(AllNames(e.decls), Singletons(ts)));
    }
    FaithfulShape(k, st, bs, Blocked(pol), e.decls);
    CollectedExact(b, i, env, s, e.decls, o, e.body, r.0);
  }

  lemma {:induction false} FaithfulShape(k: Tables, st: LState, bs: Binders, pol: Pol, ds: seq<SDecl>)
    requires BindDecls(k, st, bs, pol, ds, false).Some?
    ensures |BindDecls(k, st, bs, pol, ds, false).value.fo| == |AllNames(ds)|
    decreases |ds|
  {
    hide LowerFormula;
    if ds != [] {
      var a := BindDecl(k, st, bs, pol, ds[0], false).value;
      FaithfulShape(k, a.st, a.bs, pol, ds[1..]);
    }
  }

  lemma ComprehensionBody(i: Inst, env: Env, o: Bound, g: Formula)
    ensures Holds(i, env, MakeComprehension(o, g).body) <==> AllHold(i, env, o.disj) && Holds(i, env, g)
  {
    ConjoinHolds(i, env, o.disj);
    PairHolds(i, env, Conjoin(o.disj), g);
  }

  /** The tuples of a source comprehension. */
  ghost function Selected(b: Inst, s: SEnv, decls: seq<SDecl>, body: SFormula): TupleSet {
    set ts | ts in Choices(b, s, decls) && SrcHolds(b, s + Bind(AllNames(decls), Singletons(ts)), body) :: Flatten(ts)
  }

  lemma CollectedExact(b: Inst, i: Inst, env: Env, s: SEnv, decls: seq<SDecl>, o: Bound, body: SFormula, g: Formula)
    requires Faithful(b, i, env, s, decls, o, body, g)
    ensures Value(i, env, MakeComprehension(o, g)) == Selected(b, s, decls, body)
  {
    hide SrcHolds, Holds;
    forall u
      ensures u in Value(i, env, MakeComprehension(o, g)) <==> u in Selected(b, s, decls, body)
    {
      if u in Value(i, env, MakeComprehension(o, g)) { CollectedSelected(b, i, env, s, decls, o, body, g, u); }
      if u in Selected(b, s, decls, body) { SelectedCollected(b, i, env, s, decls, o, body, g, u); }
    }
  }

  lemma CollectedSelected(b: Inst, i: Inst, env: Env, s: SEnv, decls: seq<SDecl>, o: Bound, body: SFormula, g: Formula, u: Tuple)
    requires Faithful(b, i, env, s, decls, o, body, g) && u in Collect(i, env, MakeComprehension(o, g), 0, [])
    ensures u in Selected(b, s, decls, body)
  {
    hide SrcHolds, SrcValue, Plain.Value;
    var r := MakeComprehension(o, g);
    assert r.decls[0..] == o.fo;
    CollectBinds(i, env, r, 0, [], u);
    var ts :| Binds(i, env, o.fo, ts) && HoldsUnder(i, env, o.fo, ts, r.body) && u == [] + Flatten(ts);
    MatchCollected(b, i, env, s, decls, o, body, g, ts);
    assert u == Flatten(ts);
  }

  lemma SelectedCollected(b: Inst, i: Inst, env: Env, s: SEnv, decls: seq<SDecl>, o: Bound, body: SFormula, g: Formula, u: Tuple)
    requires Faithful(b, i, env, s, decls, o, body, g) && u in Selected(b, s, decls, body)
    ensures u in Collect(i, env, MakeComprehension(o, g), 0, [])
  {
    hide SrcHolds, Holds, SrcValue;
    var r := MakeComprehension(o, g);
    assert r.decls[0..] == o.fo;
    var ts :| ts in Choices(b, s, decls) && SrcHolds(b, s + Bind(AllNames(decls), Singletons(ts)), body) && u == Flatten(ts);
    MatchCollected(b, i, env, s, decls, o, body, g, ts);
    assert u == [] + Flatten(ts);
    CollectBinds(i, env, r, 0, [], u);
  }

  lemma MatchCollected(b: Inst, i: Inst, env: Env, s: SEnv, decls: seq<SDecl>, o: Bound, body: SFormula, g: Formula, ts: seq<Tuple>)
    requires Faithful(b, i, env, s, decls, o, body, g) && |ts| == |o.fo|
    ensures Binds(i, env, o.fo, ts) && HoldsUnder(i, env, o.fo, ts, MakeComprehension(o, g).body)
            <==> ts in Choices(b, s, decls) && SrcHolds(b, s + Bind(AllNames(decls), Singletons(ts)), body)
  {
    hide Holds, SrcHolds, Choices, InBounds, Bind, MakeComprehension, HoldsUnder, AllHold, BindEnv;
    assert Matches(b, i, env, s, decls, o, body, g, ts);
    UnderComprehension(i, env, o, g, ts);
  }

  lemma UnderComprehension(i: Inst, env: Env, o: Bound, g: Formula, ts: seq<Tuple>)
    requires |ts| == |o.fo|
    ensures HoldsUnder(i, env, o.fo, ts, MakeComprehension(o, g).body)
            <==> AllHold(i, BindEnv(env, o.fo, ts), o.disj) && Holds(i, BindEnv(env, o.fo, ts), g)
  {
    ComprehensionBody(i, BindEnv(env, o.fo, ts), o, g);
  }

  // ------------------------------------------------------------------ quantifiers

  /** Some binding of the nest passes the guards and gives the body this truth value. */
  ghost predicate Meets(i: Inst, env: Env, o: Bound, g: Formula, p: bool) {
    exists ts :: Witness(i, env, o, g, p, ts)
  }

  ghost predicate Witness(i: Inst, env: Env, o: Bound, g: Formula, p: bool, ts: seq<Tuple>) {
    && Binds(i, env, o.fo, ts)
    && AllHold(i, BindEnv(env, o.fo, ts), o.disj) && AllHold(i, BindEnv(env, o.fo, ts), o.cons)
    && Holds(i, BindEnv(env, o.fo, ts), g) == p
  }

  /** The three wrapped quantifiers, in terms of the bindings that meet the body. */
  lemma WrappedMeaning(i: Inst, env: Env, q: SQuant, o: Bound, g: Formula)
    requires q == QuAll || q == QuSome || q == QuNo
    ensures Holds(i, env, WrapQuants(if q == QuSome then QSome else QAll, o.fo, Guarded(q, o, if q == QuNo then Not(g) else g)))
            == match q { case QuSome => Meets(i, env, o, g, true) case QuAll => !Meets(i, env, o, g, false) case _ => !Meets(i, env, o, g, true) }
  {
    hide LowerFormula;
    var inner := if q == QuNo then Not(g) else g;
    var body := Guarded(q, o, inner);
    forall ts | |ts| == |o.fo|
      ensures HoldsUnder(i, env, o.fo, ts, body) <==>
        if q == QuSome then AllHold(i, BindEnv(env, o.fo, ts), o.disj) && AllHold(i, BindEnv(env, o.fo, ts), o.cons) && Holds(i, BindEnv(env, o.fo, ts), inner)
        else AllHold(i, BindEnv(env, o.fo, ts), o.disj) && AllHold(i, BindEnv(env, o.fo, ts), o.cons) ==> Holds(i, BindEnv(env, o.fo, ts), inner)
    {
      GuardedHolds(i, BindEnv(env, o.fo, ts), q, o, inner);
    }
    WrapSome(i, env, o.fo, body);
    WrapAll(i, env, o.fo, body);
    if q == QuSome {
      if ts :| Witness(i, env, o, g, true, ts) { assert Binds(i, env, o.fo, ts) && HoldsUnder(i, env, o.fo, ts, body); }
      if ts :| Binds(i, env, o.fo, ts) && HoldsUnder(i, env, o.fo, ts, body) { assert Witness(i, env, o, g, true, ts); }
    } else {
      var p := q == QuNo;
      if ts :| Witness(i, env, o, g, p, ts) { assert Binds(i, env, o.fo, ts) && !HoldsUnder(i, env, o.fo, ts, body); }
      if ts :| Binds(i, env, o.fo, ts) && !HoldsUnder(i, env, o.fo, ts, body) { assert Witness(i, env, o, g, p, ts); }
    }
  }

  /** Extending an environment by first-order declarations is choosing tuples. */
  lemma {:induction false} ExtendsChosen(b: Inst, s: SEnv, ds: seq<SDecl>, s': SEnv) returns (ts: seq<Tuple>)
    requires AllEach(ds) && Extends(b, s, ds, s')
    ensures ts in Choices(b, s, ds) && s' == s + Bind(AllNames(ds), Singletons(ts))
    decreases |ds|
  {
    hide SrcValue;
    if ds == [] {
      ts := [];
      assert s + Bind([], Singletons(ts)) == s;
    } else {
      var values :| Admissible(b, s, ds[0], values) && Extends(b, s + Bind(ds[0].names, values), ds[1..], s');
      var g := DrawOf(b, s, ds[0], values);
      assert forall j | 0 <= j < |ds[1..]| :: ds[1..][j] == ds[j + 1];
      var rest := ExtendsChosen(b, s + Bind(ds[0].names, values), ds[1..], s');
      ts := g + rest;
      InChoices(b, s, ds, g, rest);
      BindJoin(s, ds[0].names, AllNames(ds[1..]), g, rest);
    }
  }

  lemma DrawOf(b: Inst, s: SEnv, d: SDecl, values: seq<TupleSet>) returns (g: seq<Tuple>)
    requires d.bound.Each? && Admissible(b, s, d, values)
    ensures g in Draws(SrcValue(b, s, d.bound.e), |d.names|, d.disj) && Singletons(g) == values
  {
    hide SrcHolds;
    var range := SrcValue(b, s, d.bound.e);
    g := [];
    while |g| < |values|
      invariant |g| <= |values|
      invariant forall j | 0 <= j < |g| :: g[j] in range && values[j] == {g[j]}
    {
      assert InBound(d.bound, range, values[|g|]);
      var t :| t in range && values[|g|] == {t};
      g := g + [t];
    }
    assert Singletons(g) == values;
    SingletonsDisjoint(g);
  }

  lemma {:induction false} ChosenExtends(b: Inst, s: SEnv, ds: seq<SDecl>, ts: seq<Tuple>)
    requires ts in Choices(b, s, ds)
    ensures Extends(b, s, ds, s + Bind(AllNames(ds), Singletons(ts)))
    decreases |ds|
  {
    hide LowerFormula, SrcValue;
    if ds == [] {
      assert s + Bind([], Singletons(ts)) == s;
    } else {
      var d := ds[0];
      var group := Draws(SrcValue(b, s, d.bound.e), |d.names|, d.disj);
      var g, rest :| g in group && rest in Choices(b, s + Bind(d.names, Singletons(g)), ds[1..]) && ts == g + rest;
      SingletonsDisjoint(g);
      assert Admissible(b, s, d, Singletons(g)) by {
        forall j | 0 <= j < |g| ensures InBound(d.bound, SrcValue(b, s, d.bound.e), Singletons(g)[j]) { assert g[j] in SrcValue(b, s, d.bound.e); }
      }
      ChosenExtends(b, s + Bind(d.names, Singletons(g)), ds[1..], rest);
      BindJoin(s, d.names, AllNames(ds[1..]), g, rest);
    }
  }

  lemma MatchWitness(b: Inst, i: Inst, env: Env, s: SEnv, decls: seq<SDecl>, o: Bound, body: SFormula, g: Formula, p: bool, ts: seq<Tuple>)
    requires Faithful(b, i, env, s, decls, o, body, g) && o.cons == [] && |ts| == |o.fo|
    ensures Witness(i, env, o, g, p, ts) <==> ts in Choices(b, s, decls) && SrcHolds(b, s + Bind(AllNames(decls), Singletons(ts)), body) == p
  {
    hide LowerFormula, SrcHolds, SrcValue;
    assert Matches(b, i, env, s, decls, o, body, g, ts);
  }

  lemma MeetsReaches(b: Inst, i: Inst, env: Env, s: SEnv, decls: seq<SDecl>, o: Bound, body: SFormula, g: Formula, p: bool)
    requires Faithful(b, i, env, s, decls, o, body, g) && o.cons == [] && Meets(i, env, o, g, p)
    ensures Reaches(b, s, decls, body, p)
  {
    hide SrcHolds, Holds;
    var ts :| Witness(i, env, o, g, p, ts);
    MatchWitness(b, i, env, s, decls, o, body, g, p, ts);
    ChosenExtends(b, s, decls, ts);
  }

  lemma ReachesMeets(b: Inst, i: Inst, env: Env, s: SEnv, decls: seq<SDecl>, o: Bound, body: SFormula, g: Formula, p: bool)
    requires Faithful(b, i, env, s, decls, o, body, g) && o.cons == [] && AllEach(decls) && Reaches(b, s, decls, body, p)
    ensures Meets(i, env, o, g, p)
  {
    hide SrcHolds;
    var s' :| Extends(b, s, decls, s') && SrcHolds(b, s', body) == p;
    var ts := ExtendsChosen(b, s, decls, s');
    MatchWitness(b, i, env, s, decls, o, body, g, p, ts);
  }

  lemma MeetsExact(b: Inst, i: Inst, env: Env, s: SEnv, decls: seq<SDecl>, o: Bound, body: SFormula, g: Formula, p: bool)
    requires Faithful(b, i, env, s, decls, o, body, g) && AllEach(decls) && o.cons == []
    ensures Meets(i, env, o, g, p) <==> Reaches(b, s, decls, body, p)
  {
    hide SrcHolds;
    if Meets(i, env, o, g, p) { MeetsReaches(b, i, env, s, decls, o, body, g, p); }
    if Reaches(b, s, decls, body, p) { ReachesMeets(b, i, env, s, decls, o, body, g, p); }
  }

  lemma {:induction false} BodyFaithful(k: Tables, st: LState, bs: Binders, p: Pol, q: Pol, f: SFormula, b: Inst, i: Inst, env: Env, s: SEnv)
    requires f.FQuant? && q.blocked
    requires Setting(k, b, st, i, env, bs, s) && LeavesFormula(k, f)
    requires BindDecls(k, st, bs, p, f.decls, false).Some?
    requires var o := BindDecls(k, st, bs, p, f.decls, false).value; LowerFormula(k, o.st, o.bs, q, f.body).Some?
    ensures var o := BindDecls(k, st, bs, p, f.decls, false).value;
      Faithful(b, i, env, s, f.decls, o, f.body, LowerFormula(k, o.st, o.bs, q, f.body).value.0)
    decreases f, 0, 0, 0
  {
    hide BindDecl;
    var o := BindDecls(k, st, bs, p, f.decls, false).value;
    var r := LowerFormula(k, o.st, o.bs, q, f.body).value;
    FaithfulShape(k, st, bs, p, f.decls);
    forall ts: seq<Tuple> | |ts| == |o.fo|
      ensures Matches(b, i, env, s, f.decls, o, f.body, r.0, ts)
    {
      ChoicesExact(k, st, bs, p, f.decls, b, i, env, s, ts);
      FormulaExact(k, o.st, o.bs, q, f.body, b, i, BindEnv(env, o.fo, ts), s + Bind(AllNames(f.decls), Singletons(ts)));
    }
  }

  lemma {:induction false} QuantExact(k: Tables, st: LState, bs: Binders, pol: Pol, f: SFormula, b: Inst, i: Inst, env: Env, s: SEnv)
    requires f.FQuant? && Settled(pol, f)
    requires Setting(k, b, st, i, env, bs, s) && LeavesFormula(k, f)
    requires LowerFormula(k, st, bs, pol, f).Some?
    ensures Holds(i, env, LowerFormula(k, st, bs, pol, f).value.0) == SrcHolds(b, s, f)
    decreases f, 0, 1
  {
    hide SrcHolds, Holds, BindDecl;
    var q, decls, body := f.quant, f.decls, f.body;
    if q == QuOne || q == QuLone {
      CountExact(k, st, bs, pol, f, b, i, env, s);
    } else {
      var bodyPol := Pol(if q == QuNo then !pol.positive else pol.positive, true);
      var o := BindDecls(k, st, bs, pol, decls, false).value;
      var g := LowerFormula(k, o.st, o.bs, bodyPol, body).value.0;
      BodyFaithful(k, st, bs, pol, bodyPol, f, b, i, env, s);
      DeniedEach(k, st, bs, pol, decls);
      DeclsFacts(k, st, bs, pol, decls, false);
      NestExact(b, i, env, s, f, o, g);
    }
  }

  lemma NestExact(b: Inst, i: Inst, env: Env, s: SEnv, f: SFormula, o: Bound, g: Formula)
    requires f.FQuant? && (f.quant == QuAll || f.quant == QuSome || f.quant == QuNo)
    requires Faithful(b, i, env, s, f.decls, o, f.body, g) && AllEach(f.decls) && o.cons == []
    ensures var q := f.quant;
      Holds(i, env, WrapQuants(if q == QuSome then QSome else QAll, o.fo, Guarded(q, o, if q == QuNo then Not(g) else g))) == SrcHolds(b, s, f)
  {
    hide SrcHolds, Holds;
    MeetsExact(b, i, env, s, f.decls, o, f.body, g, f.quant != QuAll);
    WrappedMeaning(i, env, f.quant, o, g);
    SourceQuant(b, s, f);
  }

  lemma {:induction false} CountExact(k: Tables, st: LState, bs: Binders, pol: Pol, f: SFormula, b: Inst, i: Inst, env: Env, s: SEnv)
    requires f.FQuant? && (f.quant == QuOne || f.quant == QuLone)
    requires Setting(k, b, st, i, env, bs, s) && LeavesFormula(k, f)
    requires LowerFormula(k, st, bs, pol, f).Some?
    ensures Holds(i, env, LowerFormula(k, st, bs, pol, f).value.0) == SrcHolds(b, s, f)
    decreases f, 0, 0, 1
  {
    hide LeavesFormula, SrcHolds, Holds, ValidBinders, BindDecl;
    BodyFaithful(k, st, bs, Blocked(pol), Blocked(pol), f, b, i, env, s);
    var o := BindDecls(k, st, bs, Blocked(pol), f.decls, false).value;
    CountHolds(b, i, env, s, f, o, LowerFormula(k, o.st, o.bs, Blocked(pol), f.body).value.0);
  }

  lemma CountHolds(b: Inst, i: Inst, env: Env, s: SEnv, f: SFormula, o: Bound, g: Formula)
    requires f.FQuant? && (f.quant == QuOne || f.quant == QuLone)
    requires Faithful(b, i, env, s, f.decls, o, f.body, g)
    ensures Holds(i, env, MultTest(if f.quant == QuOne then TOne else TLone, MakeComprehension(o, g))) == SrcHolds(b, s, f)
  {
    hide SrcHolds, Collect, Holds, SrcValue;
    CollectedExact(b, i, env, s, f.decls, o, f.body, g);
    SourceCount(b, s, f);
    TestMeaning(i, env, if f.quant == QuOne then TOne else TLone, MakeComprehension(o, g));
  }

  lemma TestMeaning(i: Inst, env: Env, test: MultTest, r: RelExpr)
    ensures Holds(i, env, MultTest(test, r)) == Semantics.TestHolds(test, Value(i, env, r))
  {
  }

  lemma SourceCount(b: Inst, s: SEnv, f: SFormula)
    requires f.FQuant? && (f.quant == QuOne || f.quant == QuLone)
    ensures SrcHolds(b, s, f) == if f.quant == QuOne then |Selected(b, s, f.decls, f.body)| == 1 else |Selected(b, s, f.decls, f.body)| <= 1
  {
    hide Holds, SrcValue;
    var tuples := set ts | ts in Choices(b, s, f.decls) && SrcHolds(b, s + Bind(AllNames(f.decls), Singletons(ts)), f.body) :: Flatten(ts);
    assert tuples == Selected(b, s, f.decls, f.body);
  }

  lemma SourceQuant(b: Inst, s: SEnv, f: SFormula)
    requires f.FQuant? && (f.quant == QuAll || f.quant == QuSome || f.quant == QuNo)
    ensures SrcHolds(b, s, f) == match f.quant {
      case QuSome => Reaches(b, s, f.decls, f.body, true)
      case QuAll => !Reaches(b, s, f.decls, f.body, false)
      case _ => !Reaches(b, s, f.decls, f.body, true) }
  {
  }
}
