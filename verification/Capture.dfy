/** Free names of source formulas, and the environments they cannot tell apart. The lowerer reads the
    bound of a higher-order declaration again for every name of its group, under the names already
    pushed; that is the bound's own meaning whenever it mentions none of them. */
module Capture {
  import opened Wrappers
  import opened Algebra
  import opened Plain
  import opened Surface

  function NameSet(names: seq<string>): set<string> {
    set x | x in names
  }

  function FreeFormula(f: SFormula): set<string> {
    match f
    case FBlock(parts) => FreeParts(parts)
    case FCompare(_, _, l, r) => FreeExpr(l) + FreeExpr(r)
    case FNot(g) => FreeFormula(g)
    case FAnd(l, r) => FreeFormula(l) + FreeFormula(r)
    case FOr(l, r) => FreeFormula(l) + FreeFormula(r)
    case FImplies(l, r) => FreeFormula(l) + FreeFormula(r)
    case FIff(l, r) => FreeFormula(l) + FreeFormula(r)
    case FIte(g, t, e) => FreeFormula(g) + FreeFormula(t) + FreeFormula(e)
    case FTest(_, e) => FreeExpr(e)
    case FQuant(_, decls, body) => FreeDecls(decls, FreeFormula(body))
    case FLet(lets, body) => FreeLets(lets, FreeFormula(body))
    case FName(x, _) => {x}
  }

  function FreeParts(parts: seq<SFormula>): set<string> {
    if parts == [] then {} else FreeFormula(parts[0]) + FreeParts(parts[1..])
  }

  function FreeExpr(e: SExpr): set<string> {
    match e
    case SLeaf(_) => {}
    case SName(x) => {x}
    case SBin(_, l, r) => FreeExpr(l) + FreeExpr(r)
    case SUn(_, g) => FreeExpr(g)
    case SIte(c, t, g) => FreeFormula(c) + FreeExpr(t) + FreeExpr(g)
    case SCompr(decls, body) => FreeDecls(decls, FreeFormula(body))
  }

  /** The free names of a declaration list over a body with free names `inner`. */
  function FreeDecls(ds: seq<SDecl>, inner: set<string>): set<string>
    decreases ds
  {
    if ds == [] then inner
    else FreeExpr(ds[0].bound.e) + (FreeDecls(ds[1..], inner) - NameSet(ds[0].names))
  }

  function FreeLets(lets: seq<SLet>, inner: set<string>): set<string>
    decreases lets
  {
    if lets == [] then inner
    else
      match lets[0]
      case LetRel(x, e) => FreeExpr(e) + (FreeLets(lets[1..], inner) - {x})
      case LetFormula(x, g) => FreeFormula(g) + (FreeLets(lets[1..], inner) - {x})
  }

  /** Both environments give `x` the same relation, or the same formula under environments that agree on
      its free names. */
  ghost predicate AgreeName(s: SEnv, s': SEnv, x: string)
    decreases |s|
  {
    var n, n' := Find(s, x), Find(s', x);
    match (n, n')
    case (None, None) => true
    case (Some(a), Some(b)) =>
      s[a].1 == s'[b].1
      && (s[a].1.VFormula? ==> forall y | y in FreeFormula(s[a].1.target) :: AgreeName(s[..a], s'[..b], y))
    case _ => false
  }

  ghost predicate Agree(s: SEnv, s': SEnv, names: set<string>) {
    forall x | x in names :: AgreeName(s, s', x)
  }

  lemma FindPushed<T>(s: seq<(string, T)>, p: (string, T), x: string)
    ensures Find(s + [p], x) == if p.0 == x then Some(|s|) else Find(s, x)
  {
    assert (s + [p])[..|s|] == s;
  }

  lemma AgreePush(s: SEnv, s': SEnv, p: (string, SVal), names: set<string>)
    requires Agree(s, s', names - {p.0})
    requires p.1.VFormula? ==> Agree(s, s', FreeFormula(p.1.target))
    ensures Agree(s + [p], s' + [p], names)
  {
    forall x | x in names
      ensures AgreeName(s + [p], s' + [p], x)
    {
      FindPushed(s, p, x);
      FindPushed(s', p, x);
      if x == p.0 {
        assert (s + [p])[..|s|] == s && (s' + [p])[..|s'|] == s';
      } else {
        assert AgreeName(s, s', x);
        var n, n' := Find(s, x), Find(s', x);
        if n.Some? {
          assert (s + [p])[..n.value] == s[..n.value] && (s' + [p])[..n'.value] == s'[..n'.value];
        }
      }
    }
  }

  lemma {:induction false} AgreeBind(s: SEnv, s': SEnv, ns: seq<string>, values: seq<TupleSet>, names: set<string>)
    requires |ns| == |values| && Agree(s, s', names - NameSet(ns))
    ensures Agree(s + Bind(ns, values), s' + Bind(ns, values), names)
    decreases |ns|
  {
    if ns == [] {
      assert s + Bind(ns, values) == s && s' + Bind(ns, values) == s' && names - NameSet(ns) == names;
    } else {
      var m := |ns| - 1;
      var p := (ns[m], VRel(values[m]));
      assert forall x | x in ns :: x == ns[m] || x in ns[..m];
      assert (names - {ns[m]}) - NameSet(ns[..m]) == names - NameSet(ns);
      AgreeBind(s, s', ns[..m], values[..m], names - {ns[m]});
      AgreePush(s + Bind(ns[..m], values[..m]), s' + Bind(ns[..m], values[..m]), p, names);
      assert Bind(ns, values) == Bind(ns[..m], values[..m]) + [p];
      assert s + Bind(ns, values) == (s + Bind(ns[..m], values[..m])) + [p];
      assert s' + Bind(ns, values) == (s' + Bind(ns[..m], values[..m])) + [p];
    }
  }

  // ------------------------------------------------------------------ agreement is invisible

  lemma {:induction false} FormulaAgree(i: Inst, s: SEnv, s': SEnv, f: SFormula)
    requires Agree(s, s', FreeFormula(f))
    ensures SrcHolds(i, s, f) == SrcHolds(i, s', f)
    decreases f, 1
  {
    match f
    case FBlock(parts) => PartsAgree(i, s, s', parts);
    case FCompare(_, _, l, r) => ExprAgree(i, s, s', l); ExprAgree(i, s, s', r);
    case FNot(g) => FormulaAgree(i, s, s', g);
    case FAnd(l, r) => FormulaAgree(i, s, s', l); FormulaAgree(i, s, s', r);
    case FOr(l, r) => FormulaAgree(i, s, s', l); FormulaAgree(i, s, s', r);
    case FImplies(l, r) => FormulaAgree(i, s, s', l); FormulaAgree(i, s, s', r);
    case FIff(l, r) => FormulaAgree(i, s, s', l); FormulaAgree(i, s, s', r);
    case FIte(g, t, e) => FormulaAgree(i, s, s', g); FormulaAgree(i, s, s', t); FormulaAgree(i, s, s', e);
    case FTest(_, e) => ExprAgree(i, s, s', e);
    case FQuant(q, decls, body) => QuantAgree(i, s, s', f);
    case FLet(lets, body) =>
      LetsAgree(i, s, s', lets, FreeFormula(body));
      FormulaAgree(i, SrcLets(i, s, lets), SrcLets(i, s', lets), body);
    case FName(x, target) =>
      assert AgreeName(s, s', x);
      var n, n' := Find(s, x), Find(s', x);
      if n.Some? && s[n.value].1 == VFormula(target) {
        FormulaAgree(i, s[..n.value], s'[..n'.value], target);
      }
  }

  lemma {:induction false} PartsAgree(i: Inst, s: SEnv, s': SEnv, parts: seq<SFormula>)
    requires Agree(s, s', FreeParts(parts))
    ensures forall k | 0 <= k < |parts| :: SrcHolds(i, s, parts[k]) == SrcHolds(i, s', parts[k])
    decreases parts, 1
  {
    if parts != [] {
      FormulaAgree(i, s, s', parts[0]);
      PartsAgree(i, s, s', parts[1..]);
      forall k | 0 <= k < |parts|
        ensures SrcHolds(i, s, parts[k]) == SrcHolds(i, s', parts[k])
      {
        if k > 0 { assert parts[k] == parts[1..][k - 1]; }
      }
    }
  }

  lemma {:induction false} LetsAgree(i: Inst, s: SEnv, s': SEnv, lets: seq<SLet>, inner: set<string>)
    requires Agree(s, s', FreeLets(lets, inner))
    ensures Agree(SrcLets(i, s, lets), SrcLets(i, s', lets), inner)
    decreases lets, 1
  {
    if lets != [] {
      match lets[0]
      case LetRel(x, e) =>
        ExprAgree(i, s, s', e);
        var p := (x, VRel(SrcValue(i, s, e)));
        AgreePush(s, s', p, FreeLets(lets[1..], inner));
        LetsAgree(i, s + [p], s' + [p], lets[1..], inner);
      case LetFormula(x, g) =>
        var p := (x, VFormula(g));
        AgreePush(s, s', p, FreeLets(lets[1..], inner));
        LetsAgree(i, s + [p], s' + [p], lets[1..], inner);
    }
  }

  lemma {:induction false} ExprAgree(i: Inst, s: SEnv, s': SEnv, e: SExpr)
    requires Agree(s, s', FreeExpr(e))
    ensures SrcValue(i, s, e) == SrcValue(i, s', e)
    decreases e, 1
  {
    match e
    case SLeaf(_) =>
    case SName(x) => assert AgreeName(s, s', x);
    case SBin(_, l, r) => ExprAgree(i, s, s', l); ExprAgree(i, s, s', r);
    case SUn(_, g) => ExprAgree(i, s, s', g);
    case SIte(c, t, g) => FormulaAgree(i, s, s', c); ExprAgree(i, s, s', t); ExprAgree(i, s, s', g);
    case SCompr(decls, body) =>
      ChoicesAgree(i, s, s', decls, FreeFormula(body));
      forall ts | ts in Choices(i, s, decls)
        ensures SrcHolds(i, s + Bind(AllNames(decls), Singletons(ts)), body) == SrcHolds(i, s' + Bind(AllNames(decls), Singletons(ts)), body)
      {
        FormulaAgree(i, s + Bind(AllNames(decls), Singletons(ts)), s' + Bind(AllNames(decls), Singletons(ts)), body);
      }
  }

  lemma {:induction false} QuantAgree(i: Inst, s: SEnv, s': SEnv, f: SFormula)
    requires f.FQuant? && Agree(s, s', FreeFormula(f))
    ensures SrcHolds(i, s, f) == SrcHolds(i, s', f)
    decreases f, 0, 2
  {
    if f.quant == QuOne || f.quant == QuLone {
      CountAgree(i, s, s', f);
    } else {
      ReachesAgree(i, s, s', f, true);
      ReachesAgree(i, s, s', f, false);
    }
  }

  lemma {:induction false} CountAgree(i: Inst, s: SEnv, s': SEnv, f: SFormula)
    requires f.FQuant? && (f.quant == QuOne || f.quant == QuLone) && Agree(s, s', FreeFormula(f))
    ensures SrcHolds(i, s, f) == SrcHolds(i, s', f)
    decreases f, 0, 0
  {
    var decls, body := f.decls, f.body;
    ChoicesAgree(i, s, s', decls, FreeFormula(body));
    forall ts | ts in Choices(i, s, decls)
      ensures SrcHolds(i, s + Bind(AllNames(decls), Singletons(ts)), body) == SrcHolds(i, s' + Bind(AllNames(decls), Singletons(ts)), body)
    {
      FormulaAgree(i, s + Bind(AllNames(decls), Singletons(ts)), s' + Bind(AllNames(decls), Singletons(ts)), body);
    }
    var a := set ts | ts in Choices(i, s, decls) && SrcHolds(i, s + Bind(AllNames(decls), Singletons(ts)), body) :: Flatten(ts);
    var b := set ts | ts in Choices(i, s', decls) && SrcHolds(i, s' + Bind(AllNames(decls), Singletons(ts)), body) :: Flatten(ts);
    assert a == b;
  }

  /** A quantifier's witness on one side has a counterpart on the other. */
  lemma {:induction false} WitnessAgree(i: Inst, s: SEnv, s': SEnv, f: SFormula, t: SEnv) returns (t': SEnv)
    requires f.FQuant? && Agree(s, s', FreeFormula(f)) && Extends(i, s, f.decls, t)
    ensures Extends(i, s', f.decls, t') && SrcHolds(i, t', f.body) == SrcHolds(i, t, f.body)
    decreases f, 0, 0
  {
    t' := ExtendsAgree(i, s, s', f.decls, t, FreeFormula(f.body));
    FormulaAgree(i, t, t', f.body);
  }

  /** Some extension of the environment gives the body this truth value. */
  ghost predicate Reaches(i: Inst, s: SEnv, decls: seq<SDecl>, body: SFormula, p: bool) {
    exists t :: Extends(i, s, decls, t) && SrcHolds(i, t, body) == p
  }

  lemma {:induction false} ReachesAgree(i: Inst, s: SEnv, s': SEnv, f: SFormula, p: bool)
    requires f.FQuant? && Agree(s, s', FreeFormula(f))
    ensures Reaches(i, s, f.decls, f.body, p) <==> Reaches(i, s', f.decls, f.body, p)
    decreases f, 0, 1
  {
    if Reaches(i, s, f.decls, f.body, p) {
      var t :| Extends(i, s, f.decls, t) && SrcHolds(i, t, f.body) == p;
      var t' := WitnessAgree(i, s, s', f, t);
    }
    if Reaches(i, s', f.decls, f.body, p) {
      AgreeSymmetric(s, s', FreeFormula(f));
      var t :| Extends(i, s', f.decls, t) && SrcHolds(i, t, f.body) == p;
      var t' := WitnessAgree(i, s', s, f, t);
    }
  }

  lemma {:induction false} AgreeSymmetric(s: SEnv, s': SEnv, names: set<string>)
    requires Agree(s, s', names)
    ensures Agree(s', s, names)
    decreases |s|
  {
    forall x | x in names
      ensures AgreeName(s', s, x)
    {
      assert AgreeName(s, s', x);
      var n, n' := Find(s, x), Find(s', x);
      if n.Some? && s[n.value].1.VFormula? {
        AgreeSymmetric(s[..n.value], s'[..n'.value], FreeFormula(s[n.value].1.target));
      }
    }
  }

  /** The same values extend both environments. */
  lemma {:induction false} ExtendsAgree(i: Inst, s: SEnv, s': SEnv, ds: seq<SDecl>, t: SEnv, inner: set<string>) returns (t': SEnv)
    requires Agree(s, s', FreeDecls(ds, inner)) && Extends(i, s, ds, t)
    ensures Extends(i, s', ds, t') && Agree(t, t', inner)
    decreases ds, 1
  {
    if ds == [] {
      t' := s';
    } else {
      var values :| Admissible(i, s, ds[0], values) && Extends(i, s + Bind(ds[0].names, values), ds[1..], t);
      ExprAgree(i, s, s', ds[0].bound.e);
      assert Admissible(i, s', ds[0], values);
      AgreeBind(s, s', ds[0].names, values, FreeDecls(ds[1..], inner));
      t' := ExtendsAgree(i, s + Bind(ds[0].names, values), s' + Bind(ds[0].names, values), ds[1..], t, inner);
    }
  }

  lemma {:induction false} ChoicesAgree(i: Inst, s: SEnv, s': SEnv, ds: seq<SDecl>, inner: set<string>)
    requires Agree(s, s', FreeDecls(ds, inner))
    ensures Choices(i, s, ds) == Choices(i, s', ds)
    ensures forall ts | ts in Choices(i, s, ds) ::
      Agree(s + Bind(AllNames(ds), Singletons(ts)), s' + Bind(AllNames(ds), Singletons(ts)), inner)
    decreases ds, 1
  {
    if ds == [] {
      forall ts | ts in Choices(i, s, ds)
        ensures s + Bind(AllNames(ds), Singletons(ts)) == s && s' + Bind(AllNames(ds), Singletons(ts)) == s'
      {}
    } else if ds[0].bound.Each? {
      ExprAgree(i, s, s', ds[0].bound.e);
      var names := ds[0].names;
      var group := Draws(SrcValue(i, s, ds[0].bound.e), |names|, ds[0].disj);
      forall g | g in group
        ensures Choices(i, s + Bind(names, Singletons(g)), ds[1..]) == Choices(i, s' + Bind(names, Singletons(g)), ds[1..])
      {
        AgreeBind(s, s', names, Singletons(g), FreeDecls(ds[1..], inner));
        ChoicesAgree(i, s + Bind(names, Singletons(g)), s' + Bind(names, Singletons(g)), ds[1..], inner);
      }
      forall ts | ts in Choices(i, s, ds)
        ensures Agree(s + Bind(AllNames(ds), Singletons(ts)), s' + Bind(AllNames(ds), Singletons(ts)), inner)
      {
        var g, rest :| g in group && rest in Choices(i, s + Bind(names, Singletons(g)), ds[1..]) && ts == g + rest;
        AgreeBind(s, s', names, Singletons(g), FreeDecls(ds[1..], inner));
        ChoicesAgree(i, s + Bind(names, Singletons(g)), s' + Bind(names, Singletons(g)), ds[1..], inner);
        BindJoin(s, names, AllNames(ds[1..]), g, rest);
        BindJoin(s', names, AllNames(ds[1..]), g, rest);
      }
    }
  }

  lemma BindJoin(s: SEnv, a: seq<string>, b: seq<string>, g: seq<Tuple>, rest: seq<Tuple>)
    requires |a| == |g| && |b| == |rest|
    ensures s + Bind(a + b, Singletons(g + rest)) == (s + Bind(a, Singletons(g))) + Bind(b, Singletons(rest))
  {
    var x, y := s + Bind(a + b, Singletons(g + rest)), (s + Bind(a, Singletons(g))) + Bind(b, Singletons(rest));
    assert |x| == |y|;
    forall j | 0 <= j < |x| ensures x[j] == y[j] {}
  }

  // ------------------------------------------------------------------ higher-order groups

  /** No name of a higher-order group but the last occurs free in the group's own bound. */
  predicate Uncaptured(d: SDecl) {
    d.bound.Marked? ==> forall j | 0 <= j < |d.names| - 1 :: d.names[j] !in FreeExpr(d.bound.e)
  }

  /** Then the bound reads the same under any of the names already pushed. */
  lemma UncapturedStable(i: Inst, s: SEnv, d: SDecl, m: nat, values: seq<TupleSet>)
    requires Uncaptured(d) && d.bound.Marked? && m == |values| < |d.names|
    ensures SrcValue(i, s + Bind(d.names[..m], values), d.bound.e) == SrcValue(i, s, d.bound.e)
  {
    UnrelatedBind(s, d.names[..m], values, FreeExpr(d.bound.e));
    ExprAgree(i, s + Bind(d.names[..m], values), s, d.bound.e);
  }

  lemma {:induction false} UnrelatedBind(s: SEnv, ns: seq<string>, values: seq<TupleSet>, names: set<string>)
    requires |ns| == |values| && forall j | 0 <= j < |ns| :: ns[j] !in names
    ensures Agree(s + Bind(ns, values), s, names)
    decreases |ns|
  {
    if ns == [] {
      assert s + Bind(ns, values) == s;
      AgreeReflexive(s, names);
    } else {
      var m := |ns| - 1;
      var p := (ns[m], VRel(values[m]));
      var t := s + Bind(ns[..m], values[..m]);
      UnrelatedBind(s, ns[..m], values[..m], names);
      assert s + Bind(ns, values) == t + [p];
      forall x | x in names
        ensures AgreeName(t + [p], s, x)
      {
        FindPushed(t, p, x);
        assert AgreeName(t, s, x);
        var n := Find(t, x);
        if n.Some? { assert (t + [p])[..n.value] == t[..n.value]; }
      }
    }
  }

  lemma {:induction false} AgreeReflexive(s: SEnv, names: set<string>)
    ensures Agree(s, s, names)
    decreases |s|
  {
    forall x | x in names
      ensures AgreeName(s, s, x)
    {
      var n := Find(s, x);
      if n.Some? && s[n.value].1.VFormula? {
        AgreeReflexive(s[..n.value], FreeFormula(s[n.value].1.target));
      }
    }
  }
}
