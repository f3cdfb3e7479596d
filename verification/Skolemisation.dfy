/** Skolemisation preserves meaning: unblocked, at polarity `p`, some values of the minted relations
    inside their bounds give the lowered formula the value `p` exactly when the source, its higher-order
    bounds read as the lowerer reads them, has it. */
module Skolemisation {
  import opened Wrappers
  import opened Algebra
  import opened Ir
  import opened Folder
  import opened Plain
  import opened Freshness
  import opened Surface
  import opened Reading
  import opened AbstractUpper
  import opened Lowering
  import opened LoweringFacts
  import opened LoweringMeaning
  import opened LoweringExact

  // ------------------------------------------------------------------ stages of a run

  /** A setting whose relations and variables all lie in their bounds. */
  ghost predicate Stage(k: Tables, b: Inst, st: LState, i: Inst, env: Env, bs: Binders, s: SEnv) {
    Setting(k, b, st, i, env, bs, s) && InstInside(k, st, i) && EnvInside(st, i, env)
  }

  ghost predicate NewInside(st: LState, st': LState, i': Inst) {
    forall j | |st.skolems| <= j < |st'.skolems| :: RelValue(i', st'.skolems[j].0) <= st'.skolems[j].1.tuples
  }

  lemma StageGrows(k: Tables, b: Inst, st: LState, i: Inst, env: Env, bs: Binders, s: SEnv, st': LState, i': Inst)
    requires Stage(k, b, st, i, env, bs, s) && Ready(k, st', bs) && Grows(st, st')
    requires SameInst(i, i', st.nextRel) && NewInside(st, st', i')
    ensures Stage(k, b, st', i', env, bs, s)
  {
    hide LeavesFormula;
    CorrFrame(k, st, i, env, i', env, bs, s);
    InsideGrows(k, st, i, env, st', i');
  }

  lemma InsideGrows(k: Tables, st: LState, i: Inst, env: Env, st': LState, i': Inst)
    requires ValidState(k, st) && InstInside(k, st, i) && EnvInside(st, i, env) && Grows(st, st')
    requires forall v | v in env :: v < st.nextVar
    requires SameInst(i, i', st.nextRel) && NewInside(st, st', i')
    ensures InstInside(k, st', i') && EnvInside(st', i', env)
  {
    hide Holds;
    forall v | v in env && v in st'.varBound
      ensures env[v] in Value(i', env, st'.varBound[v])
    {
      RelFrame(i, i', env, env, st.varBound[v], v, st.nextRel);
    }
    forall j | 0 <= j < |st'.skolems|
      ensures RelValue(i', st'.skolems[j].0) <= st'.skolems[j].1.tuples
    {
      if j < |st.skolems| { assert st'.skolems[j] == st.skolems[j]; }
    }
  }

  lemma NothingNew(k: Tables, st: LState, st': LState, i: Inst)
    requires ValidState(k, st) && ValidState(k, st') && Grows(st, st') && st'.nextRel == st.nextRel
    ensures NewInside(st, st', i)
  {
  }

  lemma ExprStage(k: Tables, b: Inst, st: LState, i: Inst, env: Env, bs: Binders, s: SEnv, pol: Pol, e: SExpr)
    requires Stage(k, b, st, i, env, bs, s) && LeavesExpr(k, e) && LowerRel(k, st, bs, pol, e).Some?
    ensures var (r, st') := LowerRel(k, st, bs, pol, e).value;
      && Stage(k, b, st', i, env, bs, s) && CleanRel(r, st') && Grows(st, st') && st'.nextRel == st.nextRel
      && Value(i, env, r) == SrcValue(b, s, e)
  {
    hide LowerFormula, LowerRel, SrcHolds, Holds, SrcValue;
    ExprFacts(k, st, bs, pol, e);
    ExprExact(k, st, bs, pol, e, b, i, env, s);
    var st' := LowerRel(k, st, bs, pol, e).value.1;
    NothingNew(k, st, st', i);
    StageGrows(k, b, st, i, env, bs, s, st', i);
  }

  // ------------------------------------------------------------------ higher-order groups

  lemma {:induction false} MarkedShape(k: Tables, st: LState, bs: Binders, pol: Pol, d: SDecl, names: seq<string>)
    requires d.bound.Marked? && MintMarked(k, st, bs, pol, d, names).Some?
    ensures var m := MintMarked(k, st, bs, pol, d, names).value;
      && bs <= m.bs && |m.bs| == |bs| + |names|
      && forall j | |bs| <= j < |m.bs| :: m.bs[j].1.BExpr?
    decreases |names|
  {
    hide LowerFormula, LowerRel;
    if names != [] {
      var r := LowerRel(k, st, bs, pol, d.bound.e).value;
      var st1 := MintSkolems(r.1, 1, UpperOf(k, r.1, r.0, r.1.nextVar).value);
      var c := LowerRel(k, st1, bs, pol, d.bound.e).value;
      MarkedShape(k, c.1, bs + [(names[0], BExpr(Relation(r.1.nextRel)))], pol, d, names[1..]);
    }
  }

  lemma GroupDenotes(i: Inst, env: Env, bs: Binders, s: SEnv, names: seq<string>, values: seq<TupleSet>)
    requires |values| == |names| <= |bs| && Corr(i, env, bs, s + Bind(names, values))
    requires forall j | |bs| - |names| <= j < |bs| :: bs[j].1.BExpr?
    ensures GroupValues(i, env, Group(bs, |names|)) == values
  {
    var g := GroupValues(i, env, Group(bs, |names|));
    forall j | 0 <= j < |names|
      ensures g[j] == values[j]
    {
      var m := |bs| - |names| + j;
      assert Denotes(i, env, bs[m].1, (s + Bind(names, values))[m].1);
    }
  }

  lemma BindSnoc(s: SEnv, names: seq<string>, values: seq<TupleSet>, m: nat)
    requires |names| == |values| && m < |names|
    ensures (s + Bind(names[..m], values[..m])) + [(names[m], VRel(values[m]))] == s + Bind(names[..m + 1], values[..m + 1])
  {
  }

  /** The tables, the stack and the constraints after minting the first of these names. */
  ghost function MarkedHead(k: Tables, st: LState, bs: Binders, pol: Pol, d: SDecl, name: string): (LState, Binders, seq<Formula>)
    requires d.bound.Marked? && MintMarked(k, st, bs, pol, d, [name]).Some?
  {
    var r := LowerRel(k, st, bs, pol, d.bound.e).value;
    var st1 := MintSkolems(r.1, 1, UpperOf(k, r.1, r.0, r.1.nextVar).value);
    var c := LowerRel(k, st1, bs, pol, d.bound.e).value;
    (c.1, bs + [(name, BExpr(Relation(r.1.nextRel)))], MarkedCons(d.bound.mult, Relation(r.1.nextRel), c.0))
  }

  lemma MarkedUnfold(k: Tables, st: LState, bs: Binders, pol: Pol, d: SDecl, names: seq<string>)
    requires d.bound.Marked? && names != [] && MintMarked(k, st, bs, pol, d, names).Some?
    ensures MintMarked(k, st, bs, pol, d, [names[0]]).Some?
    ensures var (st1, bs1, cons) := MarkedHead(k, st, bs, pol, d, names[0]);
      var rest := MintMarked(k, st1, bs1, pol, d, names[1..]);
      && rest.Some? && MintMarked(k, st, bs, pol, d, names).value == Bound([], [], cons + rest.value.cons, rest.value.bs, rest.value.st)
  {
    hide LowerFormula, LowerRel;
    assert [names[0]][0] == names[0] && [names[0]][1..] == [];
  }

  lemma {:induction false} LoweredAgain(k: Tables, b: Inst, st: LState, i: Inst, env: Env, bs: Binders, s: SEnv, pol: Pol, d: SDecl, name: string) returns (st1: LState)
    requires d.bound.Marked? && LeavesExpr(k, d.bound.e)
    requires Setting(k, b, st, i, env, bs, s) && MintMarked(k, st, bs, pol, d, [name]).Some?
    ensures var r := LowerRel(k, st, bs, pol, d.bound.e).value;
      st1 == MintSkolems(r.1, 1, UpperOf(k, r.1, r.0, r.1.nextVar).value) && r.1.nextRel < st1.nextRel
    ensures var c := LowerRel(k, st1, bs, pol, d.bound.e).value;
      && Setting(k, b, c.1, i, env, bs, s) && st1.nextRel <= c.1.nextRel
      && Value(i, env, c.0) == SrcValue(b, s, d.bound.e)
  {
    hide LowerFormula, LowerRel, SrcHolds, SrcValue;
    var e := d.bound.e;
    ExprFacts(k, st, bs, pol, e);
    var r := LowerRel(k, st, bs, pol, e).value;
    var upper := UpperOf(k, r.1, r.0, r.1.nextVar).value;
    st1 := MintSkolems(r.1, 1, upper);
    MintValid(k, r.1, 1, upper);
    ReadyGrows(k, r.1, bs, st1);
    Next(k, b, st, i, env, bs, s, st1);
    ExprFacts(k, st1, bs, pol, e);
    ExprExact(k, st1, bs, pol, e, b, i, env, s);
  }

  /** One name of a group: its relation's value satisfies the bound. */
  lemma {:induction false} HeadReflect(k: Tables, b: Inst, st: LState, i: Inst, env: Env, bs: Binders, s: SEnv, pol: Pol, d: SDecl, vs: seq<TupleSet>) returns (v: TupleSet)
    requires |vs| < |d.names| && d.bound.Marked? && LeavesExpr(k, d.bound.e)
    requires Setting(k, b, st, i, env, bs, s + Bind(d.names[..|vs|], vs))
    requires MintMarked(k, st, bs, pol, d, [d.names[|vs|]]).Some?
    requires AllHold(i, env, MarkedHead(k, st, bs, pol, d, d.names[|vs|]).2)
    ensures InBound(d.bound, SrcValue(b, s + Bind(d.names[..|vs|], vs), d.bound.e), v)
    ensures var (st1, bs1, _) := MarkedHead(k, st, bs, pol, d, d.names[|vs|]);
      Setting(k, b, st1, i, env, bs1, s + Bind(d.names[..|vs| + 1], vs + [v]))
  {
    hide LowerRel, MarkedCons, InBound, SrcHolds, SrcValue;
    var m, e, name := |vs|, d.bound.e, d.names[|vs|];
    var s1 := s + Bind(d.names[..m], vs);
    var r := LowerRel(k, st, bs, pol, e).value;
    var st1 := LoweredAgain(k, b, st, i, env, bs, s1, pol, d, name);
    var x := Relation(r.1.nextRel);
    v := RelValue(i, r.1.nextRel);
    MarkedConsHold(i, env, d.bound.mult, x, LowerRel(k, st1, bs, pol, e).value.0, e);
    CorrPush(i, env, bs, s1, (name, BExpr(x)), VRel(v));
    BindSnoc(s, d.names[..m + 1], vs + [v], m);
    assert d.names[..m + 1][..m] == d.names[..m] && (vs + [v])[..m] == vs;
  }

  /** The values a run gives a higher-order group satisfy the group's bound. */
  lemma {:induction false} MarkedReflect(k: Tables, b: Inst, st: LState, i: Inst, env: Env, bs: Binders, s: SEnv, pol: Pol, d: SDecl, vs: seq<TupleSet>) returns (values: seq<TupleSet>)
    requires |vs| <= |d.names| && d.bound.Marked? && LeavesExpr(k, d.bound.e)
    requires Setting(k, b, st, i, env, bs, s + Bind(d.names[..|vs|], vs))
    requires MintMarked(k, st, bs, pol, d, d.names[|vs|..]).Some?
    requires AllHold(i, env, MintMarked(k, st, bs, pol, d, d.names[|vs|..]).value.cons)
    ensures |values| == |d.names| && vs <= values
    ensures forall j | |vs| <= j < |values| :: ReadBound(b, s, d, values, j)
    ensures var m := MintMarked(k, st, bs, pol, d, d.names[|vs|..]).value;
      Setting(k, b, m.st, i, env, m.bs, s + Bind(d.names, values))
    decreases |d.names| - |vs|
  {
    hide SrcValue;
    var m := |vs|;
    if m == |d.names| {
      values := vs;
      assert d.names[..m] == d.names;
    } else {
      var names := d.names[m..];
      MarkedUnfold(k, st, bs, pol, d, names);
      var (st1, bs1, cons) := MarkedHead(k, st, bs, pol, d, names[0]);
      assert names[1..] == d.names[m + 1..];
      AllHoldJoin(i, env, cons, MintMarked(k, st1, bs1, pol, d, names[1..]).value.cons);
      var v := HeadReflect(k, b, st, i, env, bs, s, pol, d, vs);
      values := MarkedReflect(k, b, st1, i, env, bs1, s, pol, d, vs + [v]);
      assert values[m] == (vs + [v])[m] && values[..m] == vs;
      assert ReadBound(b, s, d, values, m);
    }
  }

  /** Minting relations with values inside the bound's upper keeps the stage. */
  lemma MintStage(k: Tables, b: Inst, st: LState, i: Inst, env: Env, bs: Binders, s: SEnv, upper: Upper, values: seq<TupleSet>) returns (i': Inst)
    requires Stage(k, b, st, i, env, bs, s)
    requires forall j | 0 <= j < |values| :: values[j] <= upper.tuples
    ensures SameInst(i, i', st.nextRel) && Stage(k, b, MintSkolems(st, |values|, upper), i', env, bs, s)
    ensures Grows(st, MintSkolems(st, |values|, upper))
    ensures forall j | 0 <= j < |values| :: RelValue(i', st.nextRel + j) == values[j]
  {
    hide LowerFormula, LeavesFormula, Holds;
    i' := Install(i, st.nextRel, values);
    var st' := MintSkolems(st, |values|, upper);
    MintValid(k, st, |values|, upper);
    ReadyGrows(k, st, bs, st');
    forall j | |st.skolems| <= j < |st'.skolems|
      ensures RelValue(i', st'.skolems[j].0) <= st'.skolems[j].1.tuples
    {
      var q := j - |st.skolems|;
      assert st'.skolems[j] == (st.nextRel + q, upper) && RelValue(i', st.nextRel + q) == values[q];
    }
    StageGrows(k, b, st, i, env, bs, s, st', i');
  }

  /** One name of a group: any value the bound admits can be given to its relation. */
  lemma {:induction false} HeadRealise(k: Tables, b: Inst, st: LState, i: Inst, env: Env, bs: Binders, s: SEnv, pol: Pol, d: SDecl, m: nat, values: seq<TupleSet>) returns (i1: Inst)
    requires m < |d.names| == |values| && d.bound.Marked? && LeavesExpr(k, d.bound.e)
    requires Stage(k, b, st, i, env, bs, s + Bind(d.names[..m], values[..m]))
    requires MintMarked(k, st, bs, pol, d, [d.names[m]]).Some?
    requires ReadBound(b, s, d, values, m)
    ensures var (st1, bs1, cons) := MarkedHead(k, st, bs, pol, d, d.names[m]);
      && SameInst(i, i1, st.nextRel) && Grows(st, st1) && AllHold(i1, env, cons) && CleanAll(cons, st1)
      && Stage(k, b, st1, i1, env, bs1, s + Bind(d.names[..m + 1], values[..m + 1]))
  {
    hide LowerRel, MarkedCons, EnvInside, InstInside, LeavesFormula, SrcHolds, SrcValue;
    var name, v, e := d.names[m], values[m], d.bound.e;
    var s1 := s + Bind(d.names[..m], values[..m]);
    ExprStage(k, b, st, i, env, bs, s1, pol, e);
    var r := LowerRel(k, st, bs, pol, e).value;
    var upper := UpperOf(k, r.1, r.0, r.1.nextVar).value;
    UpperSound(k, r.1, i, env, r.0, r.1.nextVar);
    i1 := MintStage(k, b, r.1, i, env, bs, s1, upper, [v]);
    var st1 := MintSkolems(r.1, 1, upper);
    ExprStage(k, b, st1, i1, env, bs, s1, pol, e);
    var c := LowerRel(k, st1, bs, pol, e).value;
    var x := Relation(r.1.nextRel);
    assert RelValue(i1, r.1.nextRel + 0) == [v][0];
    MarkedConsHold(i1, env, d.bound.mult, x, c.0, e);
    MarkedConsClean(d.bound.mult, x, c.0, c.1);
    CorrPush(i1, env, bs, s1, (name, BExpr(x)), VRel(v));
    BindSnoc(s, d.names, values, m);
    assert Ready(k, c.1, bs + [(name, BExpr(x))]);
  }

  /** Any values the group's bound admits can be given to its skolems. */
  lemma {:induction false} MarkedRealise(k: Tables, b: Inst, st: LState, i: Inst, env: Env, bs: Binders, s: SEnv, pol: Pol, d: SDecl, m: nat, values: seq<TupleSet>) returns (i': Inst)
    requires m <= |d.names| == |values| && d.bound.Marked? && LeavesExpr(k, d.bound.e)
    requires Stage(k, b, st, i, env, bs, s + Bind(d.names[..m], values[..m]))
    requires MintMarked(k, st, bs, pol, d, d.names[m..]).Some?
    requires forall j | m <= j < |values| :: ReadBound(b, s, d, values, j)
    ensures var o := MintMarked(k, st, bs, pol, d, d.names[m..]).value;
      && SameInst(i, i', st.nextRel) && AllHold(i', env, o.cons)
      && Stage(k, b, o.st, i', env, o.bs, s + Bind(d.names, values))
    decreases |d.names| - m
  {
    hide LowerFormula, LowerRel, LeavesFormula, SrcHolds, Holds, SrcValue;
    if m == |d.names| {
      i' := i;
      assert d.names[..m] == d.names && values[..m] == values;
    } else {
      var names := d.names[m..];
      MarkedUnfold(k, st, bs, pol, d, names);
      var (st1, bs1, cons) := MarkedHead(k, st, bs, pol, d, names[0]);
      assert names[1..] == d.names[m + 1..];
      var i1 := HeadRealise(k, b, st, i, env, bs, s, pol, d, m, values);
      i' := MarkedRealise(k, b, st1, i1, env, bs1, s, pol, d, m + 1, values);
      AllHoldFrame(i1, env, i', env, cons, st1);
      AllHoldJoin(i', env, cons, MintMarked(k, st1, bs1, pol, d, names[1..]).value.cons);
    }
  }

  // ------------------------------------------------------------------ single declarations

  /** A binding of one declaration's variables that passes every guard. */
  ghost predicate Passes(i: Inst, env: Env, o: Bound, ts: seq<Tuple>) {
    && Binds(i, env, o.fo, ts)
    && AllHold(i, BindEnv(env, o.fo, ts), o.disj) && AllHold(i, BindEnv(env, o.fo, ts), o.cons)
  }

  /** Which way a declaration is bound where skolemisation is allowed. */
  ghost predicate Skolemised(k: Tables, st: LState, bs: Binders, pol: Pol, d: SDecl)
    requires LowerRel(k, st, bs, pol, d.bound.e).Some?
  {
    var (bound, st1) := LowerRel(k, st, bs, pol, d.bound.e).value;
    UpperOf(k, st1, bound, st1.nextVar).Some?
  }

  lemma {:induction false} MarkedDeclReflect(k: Tables, b: Inst, st: LState, i: Inst, env: Env, bs: Binders, s: SEnv, pol: Pol, d: SDecl, ts: seq<Tuple>) returns (values: seq<TupleSet>)
    requires d.bound.Marked? && LeavesExpr(k, d.bound.e)
    requires Setting(k, b, st, i, env, bs, s) && BindDecl(k, st, bs, pol, d, true).Some?
    requires Passes(i, env, BindDecl(k, st, bs, pol, d, true).value, ts)
    ensures var o := BindDecl(k, st, bs, pol, d, true).value;
      ReadAdmissible(b, s, d, values) && Setting(k, b, o.st, i, BindEnv(env, o.fo, ts), o.bs, s + Bind(d.names, values))
  {
    hide LowerFormula, SrcHolds, Holds, SrcValue;
    var m := MintMarked(k, st, bs, pol, d, d.names).value;
    assert d.names[0..] == d.names && d.names[..0] == [] && s + Bind([], []) == s;
    AllHoldJoin(i, env, m.cons, GroupDisjoint(d.disj, Group(m.bs, |d.names|)));
    values := MarkedReflect(k, b, st, i, env, bs, s, pol, d, []);
    MarkedShape(k, st, bs, pol, d, d.names);
    GroupDenotes(i, env, m.bs, s, d.names, values);
    GroupDisjointHolds(i, env, d.disj, Group(m.bs, |d.names|));
  }

  lemma {:induction false} MarkedDeclRealise(k: Tables, b: Inst, st: LState, i: Inst, env: Env, bs: Binders, s: SEnv, pol: Pol, d: SDecl, values: seq<TupleSet>) returns (i': Inst)
    requires d.bound.Marked? && LeavesExpr(k, d.bound.e)
    requires Stage(k, b, st, i, env, bs, s) && BindDecl(k, st, bs, pol, d, true).Some?
    requires ReadAdmissible(b, s, d, values)
    ensures var o := BindDecl(k, st, bs, pol, d, true).value;
      && o.fo == [] && SameInst(i, i', st.nextRel) && Passes(i', env, o, [])
      && Stage(k, b, o.st, i', env, o.bs, s + Bind(d.names, values))
  {
    hide LowerRel, SrcHolds;
    var m := MintMarked(k, st, bs, pol, d, d.names).value;
    assert d.names[0..] == d.names && d.names[..0] == [] && s + Bind([], []) == s && values[..0] == [];
    i' := MarkedRealise(k, b, st, i, env, bs, s, pol, d, 0, values);
    MarkedShape(k, st, bs, pol, d, d.names);
    GroupDenotes(i', env, m.bs, s, d.names, values);
    GroupDisjointHolds(i', env, d.disj, Group(m.bs, |d.names|));
    AllHoldJoin(i', env, m.cons, GroupDisjoint(d.disj, Group(m.bs, |d.names|)));
  }

  lemma SkolemGuards(i: Inst, env: Env, first: RelId, values: seq<TupleSet>, bound: RelExpr, disj: bool, e: SExpr)
    requires forall j | 0 <= j < |values| :: RelValue(i, first + j) == values[j]
    ensures var group := RelRange(first, |values|);
      AllHold(i, env, SkolemCons(group, bound) + GroupDisjoint(disj, group))
      <==> (forall j | 0 <= j < |values| :: InBound(Each(e), Value(i, env, bound), values[j])) && (disj ==> PairwiseDisjoint(values))
  {
    hide Holds;
    var group := RelRange(first, |values|);
    RelGroupValues(i, env, first, values);
    SkolemConsHold(i, env, group, bound);
    GroupDisjointHolds(i, env, disj, group);
    AllHoldJoin(i, env, SkolemCons(group, bound), GroupDisjoint(disj, group));
    forall j | 0 <= j < |values|
      ensures Value(i, env, group[j]) == values[j]
      ensures Value(i, env, group[j]) <= Value(i, env, bound) && |Value(i, env, group[j])| == 1 <==> InBound(Each(e), Value(i, env, bound), values[j])
    {
      assert group[j] == Relation(first + j);
      SingletonOf(values[j], Value(i, env, bound));
    }
  }

  lemma EachUnfold(k: Tables, st: LState, bs: Binders, pol: Pol, d: SDecl)
    requires d.bound.Each? && BindDecl(k, st, bs, pol, d, true).Some? && Skolemised(k, st, bs, pol, d)
    ensures LowerRel(k, st, bs, pol, d.bound.e).Some?
    ensures var (bound, st1) := LowerRel(k, st, bs, pol, d.bound.e).value;
      var group := RelRange(st1.nextRel, |d.names|);
      BindDecl(k, st, bs, pol, d, true).value
      == Bound([], [], SkolemCons(group, bound) + GroupDisjoint(d.disj, group), PushExprs(bs, d.names, group),
               MintSkolems(st1, |d.names|, UpperOf(k, st1, bound, st1.nextVar).value))
  {
  }

  lemma {:induction false} EachDeclReflect(k: Tables, b: Inst, st: LState, i: Inst, env: Env, bs: Binders, s: SEnv, pol: Pol, d: SDecl, ts: seq<Tuple>) returns (values: seq<TupleSet>)
    requires d.bound.Each? && LeavesExpr(k, d.bound.e)
    requires Setting(k, b, st, i, env, bs, s) && BindDecl(k, st, bs, pol, d, true).Some?
    requires Skolemised(k, st, bs, pol, d) && Passes(i, env, BindDecl(k, st, bs, pol, d, true).value, ts)
    ensures var o := BindDecl(k, st, bs, pol, d, true).value;
      Admissible(b, s, d, values) && Setting(k, b, o.st, i, BindEnv(env, o.fo, ts), o.bs, s + Bind(d.names, values))
  {
    hide LowerFormula, SrcHolds;
    ExprFacts(k, st, bs, pol, d.bound.e);
    ExprExact(k, st, bs, pol, d.bound.e, b, i, env, s);
    DeclFacts(k, st, bs, pol, d, true);
    EachUnfold(k, st, bs, pol, d);
    var o := BindDecl(k, st, bs, pol, d, true).value;
    var (bound, st1) := LowerRel(k, st, bs, pol, d.bound.e).value;
    assert ts == [] && BindEnv(env, o.fo, ts) == env;
    values := SkolemValues(k, b, i, env, bs, s, d, bound, st1.nextRel);
  }

  lemma SkolemValues(k: Tables, b: Inst, i: Inst, env: Env, bs: Binders, s: SEnv, d: SDecl, bound: RelExpr, first: RelId) returns (values: seq<TupleSet>)
    requires d.bound.Each? && Value(i, env, bound) == SrcValue(b, s, d.bound.e) && Corr(i, env, bs, s)
    requires var group := RelRange(first, |d.names|);
      AllHold(i, env, SkolemCons(group, bound) + GroupDisjoint(d.disj, group))
    ensures Admissible(b, s, d, values)
    ensures Corr(i, env, PushExprs(bs, d.names, RelRange(first, |d.names|)), s + Bind(d.names, values))
  {
    hide SrcHolds, Holds;
    values := seq(|d.names|, j requires 0 <= j < |d.names| => RelValue(i, first + j));
    SkolemGuards(i, env, first, values, bound, d.disj, d.bound.e);
    CorrPushRels(i, env, bs, s, d.names, first, values);
  }

  /** Skolem constants can be given any values the source admits. */
  lemma MintRealise(k: Tables, b: Inst, st: LState, i: Inst, env: Env, bs: Binders, s: SEnv, d: SDecl, bound: RelExpr, upper: Upper, values: seq<TupleSet>) returns (i': Inst)
    requires Stage(k, b, st, i, env, bs, s) && CleanRel(bound, st) && UpperOf(k, st, bound, st.nextVar) == Some(upper)
    requires d.bound.Each? && Value(i, env, bound) == SrcValue(b, s, d.bound.e) && Admissible(b, s, d, values)
    ensures var group := RelRange(st.nextRel, |d.names|);
      && SameInst(i, i', st.nextRel) && Stage(k, b, MintSkolems(st, |d.names|, upper), i', env, bs, s)
      && AllHold(i', env, SkolemCons(group, bound) + GroupDisjoint(d.disj, group))
      && Corr(i', env, PushExprs(bs, d.names, group), s + Bind(d.names, values))
  {
    hide LowerFormula, SrcHolds;
    UpperSound(k, st, i, env, bound, st.nextVar);
    forall j | 0 <= j < |values|
      ensures values[j] <= upper.tuples
    {
      assert InBound(d.bound, Value(i, env, bound), values[j]);
    }
    i' := MintStage(k, b, st, i, env, bs, s, upper, values);
    RelFrame(i, i', env, env, bound, st.nextVar, st.nextRel);
    SkolemGuards(i', env, st.nextRel, values, bound, d.disj, d.bound.e);
    CorrPushRels(i', env, bs, s, d.names, st.nextRel, values);
  }

  lemma {:induction false} EachDeclRealise(k: Tables, b: Inst, st: LState, i: Inst, env: Env, bs: Binders, s: SEnv, pol: Pol, d: SDecl, values: seq<TupleSet>) returns (i': Inst)
    requires d.bound.Each? && LeavesExpr(k, d.bound.e)
    requires Stage(k, b, st, i, env, bs, s) && BindDecl(k, st, bs, pol, d, true).Some?
    requires Skolemised(k, st, bs, pol, d) && Admissible(b, s, d, values)
    ensures var o := BindDecl(k, st, bs, pol, d, true).value;
      && o.fo == [] && SameInst(i, i', st.nextRel) && Passes(i', env, o, [])
      && Stage(k, b, o.st, i', env, o.bs, s + Bind(d.names, values))
  {
    hide BindDecl, LowerRel, SkolemCons, GroupDisjoint, PushExprs, RelRange, InstInside, LeavesFormula, SrcHolds, Holds, SrcValue;
    EachUnfold(k, st, bs, pol, d);
    ExprStage(k, b, st, i, env, bs, s, pol, d.bound.e);
    var (bound, st1) := LowerRel(k, st, bs, pol, d.bound.e).value;
    i' := MintRealise(k, b, st1, i, env, bs, s, d, bound, UpperOf(k, st1, bound, st1.nextVar).value, values);
    DeclFacts(k, st, bs, pol, d, true);
  }

  lemma DrawAdmissible(b: Inst, s: SEnv, d: SDecl, ts: seq<Tuple>)
    requires d.bound.Each? && ts in Draws(SrcValue(b, s, d.bound.e), |d.names|, d.disj)
    ensures Admissible(b, s, d, Singletons(ts))
  {
    hide SrcHolds;
    SingletonsDisjoint(ts);
    forall j | 0 <= j < |ts|
      ensures InBound(d.bound, SrcValue(b, s, d.bound.e), Singletons(ts)[j])
    { assert ts[j] in SrcValue(b, s, d.bound.e); }
  }

  lemma {:induction false} VarsReflect(k: Tables, b: Inst, st: LState, i: Inst, env: Env, bs: Binders, s: SEnv, pol: Pol, d: SDecl, ts: seq<Tuple>) returns (values: seq<TupleSet>)
    requires d.bound.Each? && LeavesExpr(k, d.bound.e)
    requires Setting(k, b, st, i, env, bs, s) && BindDecl(k, st, bs, pol, d, true).Some?
    requires !Skolemised(k, st, bs, pol, d) && Passes(i, env, BindDecl(k, st, bs, pol, d, true).value, ts)
    ensures var o := BindDecl(k, st, bs, pol, d, true).value;
      Admissible(b, s, d, values) && Setting(k, b, o.st, i, BindEnv(env, o.fo, ts), o.bs, s + Bind(d.names, values))
  {
    hide LowerFormula, SrcHolds;
    ExprExact(k, st, bs, pol, d.bound.e, b, i, env, s);
    DeclSetting(k, st, bs, pol, d, b, i, env, s, ts);
    DrawAdmissible(b, s, d, ts);
    values := Singletons(ts);
  }

  /** Fresh variables drawn from a bound lie in that bound, and the older ones stay in theirs. */
  lemma VarsInside(k: Tables, st: LState, i: Inst, env: Env, env': Env, bound: RelExpr, ts: seq<Tuple>)
    requires ValidState(k, st) && EnvInside(st, i, env) && CleanRel(bound, st)
    requires forall j | 0 <= j < |ts| :: ts[j] in Value(i, env, bound)
    requires SameEnv(env, env', st.nextVar) && BoundTo(env', st.nextVar, ts)
    requires forall v | v in env' :: v < st.nextVar + |ts|
    ensures EnvInside(AllocVars(st, |ts|, bound), i, env')
  {
    hide Holds;
    var st' := AllocVars(st, |ts|, bound);
    forall v | v in env' && v in st'.varBound
      ensures env'[v] in Value(i, env', st'.varBound[v])
    {
      if v < st.nextVar {
        OldVarInside(k, st, i, env, env', v);
      } else {
        RelFrame(i, i, env, env', bound, st.nextVar, st.nextRel);
        assert env'[v] == ts[v - st.nextVar];
      }
    }
  }

  lemma OldVarInside(k: Tables, st: LState, i: Inst, env: Env, env': Env, v: VarId)
    requires ValidState(k, st) && EnvInside(st, i, env) && SameEnv(env, env', st.nextVar)
    requires v in env' && v in st.varBound
    ensures env'[v] in Value(i, env', st.varBound[v])
  {
    RelFrame(i, i, env, env', st.varBound[v], v, st.nextRel);
  }

  lemma {:induction false} VarsRealise(k: Tables, b: Inst, st: LState, i: Inst, env: Env, bs: Binders, s: SEnv, pol: Pol, d: SDecl, values: seq<TupleSet>) returns (ts: seq<Tuple>)
    requires d.bound.Each? && LeavesExpr(k, d.bound.e)
    requires Stage(k, b, st, i, env, bs, s) && BindDecl(k, st, bs, pol, d, true).Some?
    requires !Skolemised(k, st, bs, pol, d) && Admissible(b, s, d, values)
    ensures var o := BindDecl(k, st, bs, pol, d, true).value;
      && Passes(i, env, o, ts) && o.st.skolems == st.skolems
      && Stage(k, b, o.st, i, BindEnv(env, o.fo, ts), o.bs, s + Bind(d.names, values))
  {
    hide SrcValue;
    ts := DrawOf(b, s, d, values);
    ExprStage(k, b, st, i, env, bs, s, pol, d.bound.e);
    DeclSetting(k, st, bs, pol, d, b, i, env, s, ts);
    var (bound, st1) := LowerRel(k, st, bs, pol, d.bound.e).value;
    VarGroupEnv(env, st1.nextVar, |ts|, bound, ts);
    VarsInside(k, st1, i, env, BindEnv(env, VarDecls(st1.nextVar, |ts|, bound), ts), bound, ts);
    assert BindDecl(k, st, bs, pol, d, true).value.fo == VarDecls(st1.nextVar, |ts|, bound);
  }

  lemma {:induction false} DeclReflect(k: Tables, b: Inst, st: LState, i: Inst, env: Env, bs: Binders, s: SEnv, pol: Pol, d: SDecl, ts: seq<Tuple>) returns (values: seq<TupleSet>)
    requires LeavesExpr(k, d.bound.e)
    requires Setting(k, b, st, i, env, bs, s) && BindDecl(k, st, bs, pol, d, true).Some?
    requires Passes(i, env, BindDecl(k, st, bs, pol, d, true).value, ts)
    ensures var o := BindDecl(k, st, bs, pol, d, true).value;
      ReadAdmissible(b, s, d, values) && Setting(k, b, o.st, i, BindEnv(env, o.fo, ts), o.bs, s + Bind(d.names, values))
  {
    hide LowerFormula, LowerRel, SrcHolds, Holds, SrcValue;
    if d.bound.Marked? {
      values := MarkedDeclReflect(k, b, st, i, env, bs, s, pol, d, ts);
    } else if Skolemised(k, st, bs, pol, d) {
      values := EachDeclReflect(k, b, st, i, env, bs, s, pol, d, ts);
      UncapturedReads(b, s, d, values);
    } else {
      values := VarsReflect(k, b, st, i, env, bs, s, pol, d, ts);
      UncapturedReads(b, s, d, values);
    }
  }

  lemma {:induction false} DeclRealise(k: Tables, b: Inst, st: LState, i: Inst, env: Env, bs: Binders, s: SEnv, pol: Pol, d: SDecl, values: seq<TupleSet>) returns (i': Inst, ts: seq<Tuple>)
    requires LeavesExpr(k, d.bound.e)
    requires Stage(k, b, st, i, env, bs, s) && BindDecl(k, st, bs, pol, d, true).Some?
    requires ReadAdmissible(b, s, d, values)
    ensures var o := BindDecl(k, st, bs, pol, d, true).value;
      && SameInst(i, i', st.nextRel) && Passes(i', env, o, ts)
      && Stage(k, b, o.st, i', BindEnv(env, o.fo, ts), o.bs, s + Bind(d.names, values))
  {
    hide LowerFormula, SrcHolds, Holds, SrcValue;
    if d.bound.Marked? {
      i' := MarkedDeclRealise(k, b, st, i, env, bs, s, pol, d, values);
      ts := [];
    } else if Skolemised(k, st, bs, pol, d) {
      UncapturedReads(b, s, d, values);
      i' := EachDeclRealise(k, b, st, i, env, bs, s, pol, d, values);
      ts := [];
    } else {
      UncapturedReads(b, s, d, values);
      i' := i;
      ts := VarsRealise(k, b, st, i, env, bs, s, pol, d, values);
    }
  }

  // ------------------------------------------------------------------ declaration lists

  lemma PassesJoin(i: Inst, env: Env, a: Bound, rest: Bound, st: LState, ta: seq<Tuple>, tb: seq<Tuple>)
    requires |ta| == |a.fo| && |tb| == |rest.fo|
    requires CleanAll(a.disj, a.st) && CleanAll(a.cons, a.st) && Ascending(rest.fo, a.st.nextVar, st)
    ensures var o := Bound(a.fo + rest.fo, a.disj + rest.disj, a.cons + rest.cons, rest.bs, rest.st);
      && BindEnv(env, o.fo, ta + tb) == BindEnv(BindEnv(env, a.fo, ta), rest.fo, tb)
      && (Passes(i, env, o, ta + tb) <==> Passes(i, env, a, ta) && Passes(i, BindEnv(env, a.fo, ta), rest, tb))
  {
    hide Holds;
    JoinBindings(i, env, a, rest, st, ta, tb);
    var env1 := BindEnv(env, a.fo, ta);
    var env2 := BindEnv(env1, rest.fo, tb);
    AllHoldFrame(i, env1, i, env2, a.cons, a.st);
    AllHoldJoin(i, env2, a.cons, rest.cons);
  }

  lemma PassesFrame(k: Tables, st: LState, i: Inst, i': Inst, env: Env, o: Bound, ts: seq<Tuple>)
    requires BoundFacts(k, st, o, true) && SameInst(i, i', o.st.nextRel) && |ts| == |o.fo|
    ensures Passes(i, env, o, ts) <==> Passes(i', env, o, ts)
  {
    hide LeavesFormula, Holds;
    BindsFrame(i, i', env, o.fo, ts, o.st.nextRel);
    var env' := BindEnv(env, o.fo, ts);
    AllHoldFrame(i, env', i', env', o.disj, o.st);
    AllHoldFrame(i, env', i', env', o.cons, o.st);
  }

  lemma {:induction false} DeclsReflect(k: Tables, b: Inst, st: LState, i: Inst, env: Env, bs: Binders, s: SEnv, pol: Pol, ds: seq<SDecl>, ts: seq<Tuple>) returns (s': SEnv)
    requires LeavesDecls(k, ds)
    requires Setting(k, b, st, i, env, bs, s) && BindDecls(k, st, bs, pol, ds, true).Some?
    requires Passes(i, env, BindDecls(k, st, bs, pol, ds, true).value, ts)
    ensures var o := BindDecls(k, st, bs, pol, ds, true).value;
      ReadExtends(b, s, ds, s') && Setting(k, b, o.st, i, BindEnv(env, o.fo, ts), o.bs, s')
    decreases |ds|
  {
    hide LowerFormula, SrcHolds;
    if ds == [] {
      s' := s;
    } else {
      var a := BindDecl(k, st, bs, pol, ds[0], true).value;
      DeclFacts(k, st, bs, pol, ds[0], true);
      assert LeavesDecls(k, ds[1..]);
      DeclsFacts(k, a.st, a.bs, pol, ds[1..], true);
      var rest := BindDecls(k, a.st, a.bs, pol, ds[1..], true).value;
      var ta, tb := ts[..|a.fo|], ts[|a.fo|..];
      assert ts == ta + tb;
      PassesJoin(i, env, a, rest, rest.st, ta, tb);
      var values := DeclReflect(k, b, st, i, env, bs, s, pol, ds[0], ta);
      s' := DeclsReflect(k, b, a.st, i, BindEnv(env, a.fo, ta), a.bs, s + Bind(ds[0].names, values), pol, ds[1..], tb);
    }
  }

  lemma {:induction false} DeclsRealise(k: Tables, b: Inst, st: LState, i: Inst, env: Env, bs: Binders, s: SEnv, pol: Pol, ds: seq<SDecl>, s': SEnv) returns (i': Inst, ts: seq<Tuple>)
    requires LeavesDecls(k, ds)
    requires Stage(k, b, st, i, env, bs, s) && BindDecls(k, st, bs, pol, ds, true).Some?
    requires ReadExtends(b, s, ds, s')
    ensures var o := BindDecls(k, st, bs, pol, ds, true).value;
      && SameInst(i, i', st.nextRel) && Passes(i', env, o, ts)
      && Stage(k, b, o.st, i', BindEnv(env, o.fo, ts), o.bs, s')
    decreases |ds|
  {
    hide LowerFormula, LowerRel, SrcHolds, BindDecl, InstInside;
    if ds == [] {
      i', ts := i, [];
    } else {
      var values :| ReadAdmissible(b, s, ds[0], values) && ReadExtends(b, s + Bind(ds[0].names, values), ds[1..], s');
      var a := BindDecl(k, st, bs, pol, ds[0], true).value;
      DeclFacts(k, st, bs, pol, ds[0], true);
      assert LeavesDecls(k, ds[1..]);
      DeclsFacts(k, a.st, a.bs, pol, ds[1..], true);
      var rest := BindDecls(k, a.st, a.bs, pol, ds[1..], true).value;
      var i1, ta := DeclRealise(k, b, st, i, env, bs, s, pol, ds[0], values);
      var i2, tb := DeclsRealise(k, b, a.st, i1, BindEnv(env, a.fo, ta), a.bs, s + Bind(ds[0].names, values), pol, ds[1..], s');
      PassesFrame(k, st, i1, i2, env, a, ta);
      PassesJoin(i2, env, a, rest, rest.st, ta, tb);
      i', ts := i2, ta + tb;
    }
  }

  // ------------------------------------------------------------------ formulas

  /** What lowering a formula at an unblocked polarity gives. */
  ghost predicate Lowered(k: Tables, st: LState, bs: Binders, pol: Pol, f: SFormula) {
    !pol.blocked && LeavesFormula(k, f) && LowerFormula(k, st, bs, pol, f).Some?
  }

  /** Nothing is minted while lowering a formula all of whose parts are blocked. */
  lemma {:induction false} SettledMints(k: Tables, st: LState, bs: Binders, pol: Pol, f: SFormula)
    requires Ready(k, st, bs) && LeavesFormula(k, f) && Settled(pol, f) && LowerFormula(k, st, bs, pol, f).Some?
    ensures LowerFormula(k, st, bs, pol, f).value.1.nextRel == st.nextRel
  {
    hide ValidBinders, BindDecl;
    if pol.blocked {
      FormulaFacts(k, st, bs, pol, f);
    } else {
      match f
      case FBlock(parts) => PartsFacts(k, st, bs, Blocked(pol), parts);
      case FCompare(_, _, l, r) =>
        ExprFacts(k, st, bs, pol, l);
        ExprFacts(k, LowerRel(k, st, bs, pol, l).value.1, bs, pol, r);
      case FAnd(l, r) => TwoFacts(k, st, bs, Blocked(pol), Blocked(pol), l, r, f);
      case FOr(l, r) => TwoFacts(k, st, bs, Blocked(pol), Blocked(pol), l, r, f);
      case FImplies(l, r) => TwoFacts(k, st, bs, Flipped(Blocked(pol)), Blocked(pol), l, r, f);
      case FIff(l, r) => TwoFacts(k, st, bs, Blocked(pol), Blocked(pol), l, r, f);
      case FIte(g, t, e) =>
        FormulaFacts(k, st, bs, Blocked(pol), g);
        TwoFacts(k, LowerFormula(k, st, bs, Blocked(pol), g).value.1, bs, Blocked(pol), Blocked(pol), t, e, f);
      case FTest(test, e) => ExprFacts(k, st, bs, pol, e);
      case FQuant(_, _, _) => SettledQuantMints(k, st, bs, pol, f);
    }
  }

  lemma {:induction false} SettledQuantMints(k: Tables, st: LState, bs: Binders, pol: Pol, f: SFormula)
    requires f.FQuant? && !pol.blocked
    requires Ready(k, st, bs) && LeavesFormula(k, f) && Settled(pol, f) && LowerFormula(k, st, bs, pol, f).Some?
    ensures LowerFormula(k, st, bs, pol, f).value.1.nextRel == st.nextRel
  {
    hide LowerRel, ValidBinders, BindDecl;
    var p := if f.quant == QuOne || f.quant == QuLone then Blocked(pol) else pol;
    DeclsFacts(k, st, bs, p, f.decls, false);
    var o := BindDecls(k, st, bs, p, f.decls, false).value;
    FormulaFacts(k, o.st, o.bs, Pol(if f.quant == QuNo then !pol.positive else pol.positive, true), f.body);
  }

  /** Where everything is lowered blocked no higher-order group is accepted, so none can capture. */
  lemma {:induction false} SettledFree(k: Tables, st: LState, bs: Binders, pol: Pol, f: SFormula)
    requires Settled(pol, f) && LowerFormula(k, st, bs, pol, f).Some?
    ensures CaptureFree(f)
    decreases f, 1
  {
    hide LowerRel, BindDecl;
    match f
    case FBlock(parts) => PartsFree(k, st, bs, BlockedIf(pol, !pol.positive && |parts| >= 2), parts);
    case FNot(g) => SettledFree(k, st, bs, Flipped(pol), g);
    case FAnd(l, r) => PairFree(k, st, bs, Blocked(pol), Blocked(pol), l, r, f);
    case FOr(l, r) => PairFree(k, st, bs, Blocked(pol), Blocked(pol), l, r, f);
    case FImplies(l, r) => PairFree(k, st, bs, Flipped(Blocked(pol)), Blocked(pol), l, r, f);
    case FQuant(_, _, _) => QuantFree(k, st, bs, pol, f);
    case FLet(lets, body) =>
      var p := PushLets(k, st, bs, pol, lets).value;
      SettledFree(k, p.1, p.0, pol, body);
    case FName(x, target) =>
      var n := Find(bs, x).value;
      SettledFree(k, st, bs[..bs[n].1.depth], pol, target);
    case _ =>
  }

  lemma {:induction false} PairFree(k: Tables, st: LState, bs: Binders, p: Pol, q: Pol, l: SFormula, r: SFormula, owner: SFormula)
    requires l < owner && r < owner && p.blocked && q.blocked && LowerFormula(k, st, bs, p, l).Some?
    requires LowerFormula(k, LowerFormula(k, st, bs, p, l).value.1, bs, q, r).Some?
    ensures CaptureFree(l) && CaptureFree(r)
    decreases owner, 0
  {
    hide LowerFormula;
    SettledFree(k, st, bs, p, l);
    SettledFree(k, LowerFormula(k, st, bs, p, l).value.1, bs, q, r);
  }

  lemma {:induction false} PartsFree(k: Tables, st: LState, bs: Binders, pol: Pol, parts: seq<SFormula>)
    requires pol.blocked && LowerParts(k, st, bs, pol, parts).Some?
    ensures forall j | 0 <= j < |parts| :: CaptureFree(parts[j])
    decreases parts, 1
  {
    hide LowerFormula;
    if parts != [] {
      SettledFree(k, st, bs, pol, parts[0]);
      PartsFree(k, LowerFormula(k, st, bs, pol, parts[0]).value.1, bs, pol, parts[1..]);
      assert forall j | 0 < j < |parts| :: parts[j] == parts[1..][j - 1];
    }
  }

  lemma {:induction false} QuantFree(k: Tables, st: LState, bs: Binders, pol: Pol, f: SFormula)
    requires f.FQuant? && Settled(pol, f) && LowerFormula(k, st, bs, pol, f).Some?
    ensures CaptureFree(f)
    decreases f, 0
  {
    hide LowerRel, BindDecl;
    var count := f.quant == QuOne || f.quant == QuLone;
    var p := if count then Blocked(pol) else pol;
    var o := BindDecls(k, st, bs, p, f.decls, false).value;
    DeniedEach(k, st, bs, p, f.decls);
    SettledFree(k, o.st, o.bs, if count then p else Pol(if f.quant == QuNo then !pol.positive else pol.positive, true), f.body);
  }

  /** A skolemisable quantifier has its polarity's value when some binding gives the body its own. */
  lemma ExistentialTarget(b: Inst, s: SEnv, i: Inst, env: Env, f: SFormula, pol: Pol, o: Bound, g: Formula)
    requires f.FQuant? && (f.quant == QuAll || f.quant == QuSome || f.quant == QuNo) && EffectiveExistential(f.quant, pol)
    ensures var q := f.quant;
      Holds(i, env, WrapQuants(if q == QuSome then QSome else QAll, o.fo, Guarded(q, o, if q == QuNo then Not(g) else g))) == pol.positive
      <==> Meets(i, env, o, g, BodyPol(q, pol).positive)
    ensures ReadHolds(b, s, f) == pol.positive <==> ReadReaches(b, s, f.decls, f.body, BodyPol(f.quant, pol).positive)
  {
    hide SrcHolds, ReadHolds, Holds;
    WrappedMeaning(i, env, f.quant, o, g);
    ReadQuant(b, s, f);
  }

  /** Whatever values the skolems take, a lowered formula with its polarity's value is a source formula
      with that value, its groups read as the lowerer reads them. */
  lemma {:induction false} FormulaReflect(k: Tables, b: Inst, st: LState, i: Inst, env: Env, bs: Binders, s: SEnv, pol: Pol, f: SFormula)
    requires Setting(k, b, st, i, env, bs, s) && Lowered(k, st, bs, pol, f)
    requires Holds(i, env, LowerFormula(k, st, bs, pol, f).value.0) == pol.positive
    ensures ReadHolds(b, s, f) == pol.positive
    decreases f, 1
  {
    hide SrcHolds;
    if Settled(pol, f) {
      FormulaExact(k, st, bs, pol, f, b, i, env, s);
      SettledFree(k, st, bs, pol, f);
      LexicallyRead(b, s, f);
    } else {
      match f
      case FBlock(parts) => BlockReflect(k, b, st, i, env, bs, s, pol, f);
      case FNot(g) => FormulaReflect(k, b, st, i, env, bs, s, Flipped(pol), g);
      case FAnd(l, r) => PairReflect(k, b, st, i, env, bs, s, pol, pol, f, l, r);
      case FOr(l, r) => PairReflect(k, b, st, i, env, bs, s, pol, pol, f, l, r);
      case FImplies(l, r) => PairReflect(k, b, st, i, env, bs, s, Flipped(pol), pol, f, l, r);
      case FQuant(_, _, _) => QuantReflect(k, b, st, i, env, bs, s, pol, f);
      case FLet(_, _) => ScopeReflect(k, b, st, i, env, bs, s, pol, f);
      case FName(_, _) => ScopeReflect(k, b, st, i, env, bs, s, pol, f);
    }
  }

  lemma {:induction false} ScopeReflect(k: Tables, b: Inst, st: LState, i: Inst, env: Env, bs: Binders, s: SEnv, pol: Pol, f: SFormula)
    requires f.FLet? || f.FName?
    requires Setting(k, b, st, i, env, bs, s) && Lowered(k, st, bs, pol, f)
    requires Holds(i, env, LowerFormula(k, st, bs, pol, f).value.0) == pol.positive
    ensures ReadHolds(b, s, f) == pol.positive
    decreases f, 0
  {
    hide BindDecl;
    match f
    case FLet(lets, body) =>
      LetsExact(k, st, bs, pol, lets, b, i, env, s);
      var p := PushLets(k, st, bs, pol, lets).value;
      FormulaReflect(k, b, p.1, i, env, p.0, SrcLets(b, s, lets), pol, body);
    case FName(x, target) =>
      var n := NameSetting(k, st, bs, b, i, env, s, x, target);
      FormulaReflect(k, b, st, i, env, bs[..n], s[..n], pol, target);
  }

  lemma {:induction false} PairReflect(k: Tables, b: Inst, st: LState, i: Inst, env: Env, bs: Binders, s: SEnv, p: Pol, q: Pol, owner: SFormula, l: SFormula, r: SFormula)
    requires l < owner && r < owner
    requires Setting(k, b, st, i, env, bs, s) && Lowered(k, st, bs, p, l)
    requires Lowered(k, LowerFormula(k, st, bs, p, l).value.1, bs, q, r)
    ensures var x := LowerFormula(k, st, bs, p, l).value;
      && (Holds(i, env, x.0) == p.positive ==> ReadHolds(b, s, l) == p.positive)
      && (Holds(i, env, LowerFormula(k, x.1, bs, q, r).value.0) == q.positive ==> ReadHolds(b, s, r) == q.positive)
    ensures var x := LowerFormula(k, st, bs, p, l).value; var y := LowerFormula(k, x.1, bs, q, r).value;
      && Holds(i, env, And([x.0, y.0])) == (Holds(i, env, x.0) && Holds(i, env, y.0))
      && Holds(i, env, Or([x.0, y.0])) == (Holds(i, env, x.0) || Holds(i, env, y.0))
    decreases owner, 0
  {
    hide LowerFormula, ReadHolds, Holds, LeavesFormula;
    var x := LowerFormula(k, st, bs, p, l).value;
    var y := LowerFormula(k, x.1, bs, q, r).value;
    if Holds(i, env, x.0) == p.positive { FormulaReflect(k, b, st, i, env, bs, s, p, l); }
    FormulaFacts(k, st, bs, p, l);
    Next(k, b, st, i, env, bs, s, x.1);
    if Holds(i, env, y.0) == q.positive { FormulaReflect(k, b, x.1, i, env, bs, s, q, r); }
    PairHolds(i, env, x.0, y.0);
  }

  lemma {:induction false} BlockReflect(k: Tables, b: Inst, st: LState, i: Inst, env: Env, bs: Binders, s: SEnv, pol: Pol, f: SFormula)
    requires f.FBlock? && !Settled(pol, f)
    requires Setting(k, b, st, i, env, bs, s) && Lowered(k, st, bs, pol, f)
    requires Holds(i, env, LowerFormula(k, st, bs, pol, f).value.0) == pol.positive
    ensures ReadHolds(b, s, f) == pol.positive
    decreases f, 0
  {
    hide SrcHolds, BindDecl;
    if pol.positive {
      ConjoinHolds(i, env, LowerParts(k, st, bs, pol, f.parts).value.0);
      PartsReflect(k, b, st, i, env, bs, s, pol, f.parts);
    } else if |f.parts| == 1 {
      OnePart(k, st, bs, pol, f.parts);
      FormulaReflect(k, b, st, i, env, bs, s, pol, f.parts[0]);
    }
  }

  lemma OnePart(k: Tables, st: LState, bs: Binders, pol: Pol, parts: seq<SFormula>)
    requires |parts| == 1
    ensures LowerParts(k, st, bs, pol, parts).Some? <==> LowerFormula(k, st, bs, pol, parts[0]).Some?
    ensures LowerParts(k, st, bs, pol, parts).Some? ==>
      LowerParts(k, st, bs, pol, parts).value == ([LowerFormula(k, st, bs, pol, parts[0]).value.0], LowerFormula(k, st, bs, pol, parts[0]).value.1)
  {
    hide LowerFormula;
    if LowerFormula(k, st, bs, pol, parts[0]).Some? {
      var a := LowerFormula(k, st, bs, pol, parts[0]).value;
      assert LowerParts(k, a.1, bs, pol, parts[1..]) == Some(([], a.1));
      assert [a.0] + [] == [a.0];
    }
  }

  lemma {:induction false} PartsReflect(k: Tables, b: Inst, st: LState, i: Inst, env: Env, bs: Binders, s: SEnv, pol: Pol, parts: seq<SFormula>)
    requires pol == Pol(true, false) && (forall j | 0 <= j < |parts| :: LeavesFormula(k, parts[j]))
    requires Setting(k, b, st, i, env, bs, s) && LowerParts(k, st, bs, pol, parts).Some?
    requires AllHold(i, env, LowerParts(k, st, bs, pol, parts).value.0)
    ensures forall j | 0 <= j < |parts| :: ReadHolds(b, s, parts[j])
    decreases parts, 1
  {
    hide LowerFormula, LeavesFormula, SrcHolds, ReadHolds, Holds;
    if parts != [] {
      var x := LowerFormula(k, st, bs, pol, parts[0]).value;
      var gs := LowerParts(k, x.1, bs, pol, parts[1..]).value.0;
      AllHoldJoin(i, env, [x.0], gs);
      assert [x.0][0] == x.0;
      FormulaReflect(k, b, st, i, env, bs, s, pol, parts[0]);
      FormulaFacts(k, st, bs, pol, parts[0]);
      Next(k, b, st, i, env, bs, s, x.1);
      PartsReflect(k, b, x.1, i, env, bs, s, pol, parts[1..]);
      assert forall j | 0 < j < |parts| :: parts[j] == parts[1..][j - 1];
    }
  }

  lemma {:induction false} QuantReflect(k: Tables, b: Inst, st: LState, i: Inst, env: Env, bs: Binders, s: SEnv, pol: Pol, f: SFormula)
    requires f.FQuant? && !Settled(pol, f)
    requires Setting(k, b, st, i, env, bs, s) && Lowered(k, st, bs, pol, f)
    requires Holds(i, env, LowerFormula(k, st, bs, pol, f).value.0) == pol.positive
    ensures ReadHolds(b, s, f) == pol.positive
    decreases f, 0
  {
    hide LowerFormula, ReadHolds, Holds, WrapQuants, Guarded, ReadExtends, EnvInside, LowerRel, BindDecl, Corr;
    QuantUnfolds(k, st, bs, pol, f);
    var o := BindDecls(k, st, bs, pol, f.decls, true).value;
    var q := BodyPol(f.quant, pol);
    var g := LowerFormula(k, o.st, o.bs, q, f.body).value.0;
    ExistentialTarget(b, s, i, env, f, pol, o, g);
    var ts :| Witness(i, env, o, g, q.positive, ts);
    var s' := DeclsReflect(k, b, st, i, env, bs, s, pol, f.decls, ts);
    FormulaReflect(k, b, o.st, i, BindEnv(env, o.fo, ts), o.bs, s', q, f.body);
  }

  /** The stage after lowering a formula whose relations were given values. */
  ghost predicate Realised(k: Tables, b: Inst, st: LState, i: Inst, env: Env, bs: Binders, s: SEnv, pol: Pol, g: Formula, st': LState, i': Inst) {
    && SameInst(i, i', st.nextRel) && Stage(k, b, st', i', env, bs, s)
    && Holds(i', env, g) == pol.positive
  }

  lemma {:induction false} SettledRealise(k: Tables, b: Inst, st: LState, i: Inst, env: Env, bs: Binders, s: SEnv, pol: Pol, f: SFormula)
    requires Stage(k, b, st, i, env, bs, s) && Lowered(k, st, bs, pol, f) && Settled(pol, f)
    requires ReadHolds(b, s, f) == pol.positive
    ensures var (g, st') := LowerFormula(k, st, bs, pol, f).value; Realised(k, b, st, i, env, bs, s, pol, g, st', i)
  {
    hide LowerFormula, LeavesFormula, SrcHolds, ReadHolds, Holds;
    FormulaFacts(k, st, bs, pol, f);
    FormulaExact(k, st, bs, pol, f, b, i, env, s);
    SettledFree(k, st, bs, pol, f);
    LexicallyRead(b, s, f);
    SettledMints(k, st, bs, pol, f);
    var st' := LowerFormula(k, st, bs, pol, f).value.1;
    NothingNew(k, st, st', i);
    StageGrows(k, b, st, i, env, bs, s, st', i);
  }

  /** A source formula with its polarity's value has skolem values inside their bounds that give the
      lowered formula that value. */
  lemma {:induction false} FormulaRealise(k: Tables, b: Inst, st: LState, i: Inst, env: Env, bs: Binders, s: SEnv, pol: Pol, f: SFormula) returns (i': Inst)
    requires Stage(k, b, st, i, env, bs, s) && Lowered(k, st, bs, pol, f)
    requires ReadHolds(b, s, f) == pol.positive
    ensures var (g, st') := LowerFormula(k, st, bs, pol, f).value; Realised(k, b, st, i, env, bs, s, pol, g, st', i')
    decreases f, 1
  {
    hide LowerRel, SrcHolds;
    if Settled(pol, f) {
      SettledRealise(k, b, st, i, env, bs, s, pol, f);
      i' := i;
    } else {
      match f
      case FBlock(parts) => i' := BlockRealise(k, b, st, i, env, bs, s, pol, f);
      case FNot(g) => i' := FormulaRealise(k, b, st, i, env, bs, s, Flipped(pol), g);
      case FAnd(l, r) => i' := PairRealise(k, b, st, i, env, bs, s, pol, pol, f, l, r);
      case FOr(l, r) => i' := PairRealise(k, b, st, i, env, bs, s, pol, pol, f, l, r);
      case FImplies(l, r) => i' := PairRealise(k, b, st, i, env, bs, s, Flipped(pol), pol, f, l, r);
      case FQuant(_, _, _) => i' := QuantRealise(k, b, st, i, env, bs, s, pol, f);
      case FLet(_, _) => i' := LetRealise(k, b, st, i, env, bs, s, pol, f);
      case FName(_, _) => i' := NameRealise(k, b, st, i, env, bs, s, pol, f);
    }
  }

  lemma {:induction false} LetRealise(k: Tables, b: Inst, st: LState, i: Inst, env: Env, bs: Binders, s: SEnv, pol: Pol, f: SFormula) returns (i': Inst)
    requires f.FLet?
    requires Stage(k, b, st, i, env, bs, s) && Lowered(k, st, bs, pol, f)
    requires ReadHolds(b, s, f) == pol.positive
    ensures var (g, st') := LowerFormula(k, st, bs, pol, f).value; Realised(k, b, st, i, env, bs, s, pol, g, st', i')
    decreases f, 0
  {
    LetsExact(k, st, bs, pol, f.lets, b, i, env, s);
    LetsFacts(k, st, bs, pol, f.lets);
    var p := PushLets(k, st, bs, pol, f.lets).value;
    NothingNew(k, st, p.1, i);
    InsideGrows(k, st, i, env, p.1, i);
    FormulaFacts(k, p.1, p.0, pol, f.body);
    i' := FormulaRealise(k, b, p.1, i, env, p.0, SrcLets(b, s, f.lets), pol, f.body);
    StageBack(k, b, st, i, env, bs, s, LowerFormula(k, p.1, p.0, pol, f.body).value.1, i');
  }

  /** A later stage's tables and relations serve an earlier stage's stack. */
  lemma StageBack(k: Tables, b: Inst, st: LState, i: Inst, env: Env, bs: Binders, s: SEnv, st': LState, i': Inst)
    requires Stage(k, b, st, i, env, bs, s) && ValidState(k, st') && Grows(st, st')
    requires SameInst(i, i', st.nextRel) && InstInside(k, st', i')
    ensures Stage(k, b, st', i', env, bs, s)
  {
    hide LeavesFormula;
    ReadyGrows(k, st, bs, st');
    StageGrows(k, b, st, i, env, bs, s, st', i');
  }

  lemma {:induction false} NameRealise(k: Tables, b: Inst, st: LState, i: Inst, env: Env, bs: Binders, s: SEnv, pol: Pol, f: SFormula) returns (i': Inst)
    requires f.FName?
    requires Stage(k, b, st, i, env, bs, s) && Lowered(k, st, bs, pol, f)
    requires ReadHolds(b, s, f) == pol.positive
    ensures var (g, st') := LowerFormula(k, st, bs, pol, f).value; Realised(k, b, st, i, env, bs, s, pol, g, st', i')
    decreases f, 0
  {
    hide LowerRel, BindDecl;
    var n := NameSetting(k, st, bs, b, i, env, s, f.name, f.target);
    FormulaFacts(k, st, bs[..n], pol, f.target);
    i' := FormulaRealise(k, b, st, i, env, bs[..n], s[..n], pol, f.target);
    StageBack(k, b, st, i, env, bs, s, LowerFormula(k, st, bs[..n], pol, f.target).value.1, i');
  }

  lemma {:induction false} PairRealise(k: Tables, b: Inst, st: LState, i: Inst, env: Env, bs: Binders, s: SEnv, p: Pol, q: Pol, owner: SFormula, l: SFormula, r: SFormula) returns (i': Inst)
    requires l < owner && r < owner
    requires Stage(k, b, st, i, env, bs, s) && Lowered(k, st, bs, p, l)
    requires Lowered(k, LowerFormula(k, st, bs, p, l).value.1, bs, q, r)
    requires ReadHolds(b, s, l) == p.positive && ReadHolds(b, s, r) == q.positive
    ensures var x := LowerFormula(k, st, bs, p, l).value; var y := LowerFormula(k, x.1, bs, q, r).value;
      && SameInst(i, i', st.nextRel) && Stage(k, b, y.1, i', env, bs, s)
      && Holds(i', env, x.0) == p.positive && Holds(i', env, y.0) == q.positive
      && Holds(i', env, And([x.0, y.0])) == (p.positive && q.positive)
      && Holds(i', env, Or([x.0, y.0])) == (p.positive || q.positive)
    decreases owner, 0
  {
    hide LowerFormula, ReadHolds, Holds, EnvInside, InstInside, Corr;
    var x := LowerFormula(k, st, bs, p, l).value;
    var y := LowerFormula(k, x.1, bs, q, r).value;
    var i1 := FormulaRealise(k, b, st, i, env, bs, s, p, l);
    FormulaFacts(k, st, bs, p, l);
    i' := FormulaRealise(k, b, x.1, i1, env, bs, s, q, r);
    FormulaFrame(i1, i', env, env, x.0, x.1.nextVar, x.1.nextRel);
    PairHolds(i', env, x.0, y.0);
  }

  lemma {:induction false} BlockRealise(k: Tables, b: Inst, st: LState, i: Inst, env: Env, bs: Binders, s: SEnv, pol: Pol, f: SFormula) returns (i': Inst)
    requires f.FBlock? && !Settled(pol, f)
    requires Stage(k, b, st, i, env, bs, s) && Lowered(k, st, bs, pol, f)
    requires ReadHolds(b, s, f) == pol.positive
    ensures var (g, st') := LowerFormula(k, st, bs, pol, f).value; Realised(k, b, st, i, env, bs, s, pol, g, st', i')
    decreases f, 0
  {
    hide SrcHolds, BindDecl;
    if pol.positive {
      i' := PartsRealise(k, b, st, i, env, bs, s, pol, f.parts);
      ConjoinHolds(i', env, LowerParts(k, st, bs, pol, f.parts).value.0);
    } else {
      OnePart(k, st, bs, pol, f.parts);
      i' := FormulaRealise(k, b, st, i, env, bs, s, pol, f.parts[0]);
    }
  }

  lemma {:induction false} PartsRealise(k: Tables, b: Inst, st: LState, i: Inst, env: Env, bs: Binders, s: SEnv, pol: Pol, parts: seq<SFormula>) returns (i': Inst)
    requires pol == Pol(true, false) && (forall j | 0 <= j < |parts| :: LeavesFormula(k, parts[j]))
    requires Stage(k, b, st, i, env, bs, s) && LowerParts(k, st, bs, pol, parts).Some?
    requires forall j | 0 <= j < |parts| :: ReadHolds(b, s, parts[j])
    ensures var (gs, st') := LowerParts(k, st, bs, pol, parts).value;
      SameInst(i, i', st.nextRel) && Stage(k, b, st', i', env, bs, s) && AllHold(i', env, gs)
    decreases parts, 1
  {
    hide LowerFormula, ReadHolds, EnvInside, InstInside, LeavesFormula, Holds, Corr;
    if parts == [] {
      i' := i;
    } else {
      var x := LowerFormula(k, st, bs, pol, parts[0]).value;
      var gs := LowerParts(k, x.1, bs, pol, parts[1..]).value.0;
      var i1 := FormulaRealise(k, b, st, i, env, bs, s, pol, parts[0]);
      FormulaFacts(k, st, bs, pol, parts[0]);
      assert forall j | 0 <= j < |parts[1..]| :: parts[1..][j] == parts[j + 1];
      i' := PartsRealise(k, b, x.1, i1, env, bs, s, pol, parts[1..]);
      FormulaFrame(i1, i', env, env, x.0, x.1.nextVar, x.1.nextRel);
      AllHoldJoin(i', env, [x.0], gs);
    }
  }

  lemma {:induction false} QuantRealise(k: Tables, b: Inst, st: LState, i: Inst, env: Env, bs: Binders, s: SEnv, pol: Pol, f: SFormula) returns (i': Inst)
    requires f.FQuant? && !Settled(pol, f)
    requires Stage(k, b, st, i, env, bs, s) && Lowered(k, st, bs, pol, f)
    requires ReadHolds(b, s, f) == pol.positive
    ensures var (g, st') := LowerFormula(k, st, bs, pol, f).value; Realised(k, b, st, i, env, bs, s, pol, g, st', i')
    decreases f, 0
  {
    hide LowerFormula, ReadHolds, Holds, WrapQuants, Guarded, ReadExtends, EnvInside, LowerRel, SrcHolds, BindDecl;
    QuantUnfolds(k, st, bs, pol, f);
    var o := BindDecls(k, st, bs, pol, f.decls, true).value;
    var q := BodyPol(f.quant, pol);
    var (g, st') := LowerFormula(k, o.st, o.bs, q, f.body).value;
    ExistentialTarget(b, s, i, env, f, pol, o, g);
    var s' :| ReadExtends(b, s, f.decls, s') && ReadHolds(b, s', f.body) == q.positive;
    DeclsFacts(k, st, bs, pol, f.decls, true);
    var i1, ts := DeclsRealise(k, b, st, i, env, bs, s, pol, f.decls, s');
    i' := FormulaRealise(k, b, o.st, i1, BindEnv(env, o.fo, ts), o.bs, s', q, f.body);
    FormulaFacts(k, o.st, o.bs, q, f.body);
    PassesFrame(k, st, i1, i', env, o, ts);
    assert Witness(i', env, o, g, q.positive, ts);
    ExistentialTarget(b, s, i', env, f, pol, o, g);
    StageBack(k, b, st, i, env, bs, s, st', i');
  }
}
