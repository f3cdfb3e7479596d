/** The theorems a command relies on: lowering its goal, blocked and unblocked, read by the evaluator in
    either overflow mode; and the one family of declarations for which the unblocked theorem fails. */
module SkolemTheorems {
  import opened Wrappers
  import opened Algebra
  import opened Ir
  import opened Plain
  import opened Freshness
  import opened Surface
  import opened Capture
  import opened Reading
  import opened AbstractUpper
  import opened Lowering
  import opened LoweringFacts
  import opened LoweringExact
  import opened Skolemisation
  import Semantics

  /** The lowerer's tables before it has lowered anything. */
  function Start(k: Tables): LState {
    LState(0, k.nextRel, [], map[])
  }

  ghost predicate Given(k: Tables, b: Inst) {
    (forall r | r in k.base :: r < k.nextRel) && InstInside(k, Start(k), b)
  }

  /** The model's own relations, and the minted ones inside their bounds. */
  ghost predicate Extension(k: Tables, st: LState, b: Inst, i: Inst) {
    SameInst(b, i, k.nextRel) && InstInside(k, st, i)
  }

  /** Some values of the minted relations inside their bounds give the formula this value. */
  ghost predicate Attains(k: Tables, st: LState, b: Inst, g: Formula, p: bool) {
    exists i :: Extension(k, st, b, i) && Holds(i, map[], g) == p
  }

  /** Lowering a goal at polarity `p`: its skolems can be given values with truth value `p` exactly when
      the goal, its higher-order bounds read as the lowerer reads them, has truth value `p`. */
  lemma SkolemisationReads(k: Tables, b: Inst, p: bool, f: SFormula)
    requires Given(k, b) && Lowered(k, Start(k), [], Pol(p, false), f)
    ensures var (g, st) := LowerFormula(k, Start(k), [], Pol(p, false), f).value;
      Attains(k, st, b, g, p) <==> ReadHolds(b, [], f) == p
  {
    hide LowerFormula, ReadHolds, Holds, LeavesFormula;
    var st0 := Start(k);
    var (g, st) := LowerFormula(k, st0, [], Pol(p, false), f).value;
    if Attains(k, st, b, g, p) {
      var i :| Extension(k, st, b, i) && Holds(i, map[], g) == p;
      FormulaReflect(k, b, st0, i, map[], [], [], Pol(p, false), f);
    }
    if ReadHolds(b, [], f) == p {
      var i := FormulaRealise(k, b, st0, b, map[], [], [], Pol(p, false), f);
      assert Extension(k, st, b, i);
    }
  }

  /** So the lowered goal means the source goal exactly where that reading has the lexical meaning. */
  lemma SkolemisationExact(k: Tables, b: Inst, p: bool, f: SFormula)
    requires Given(k, b) && Lowered(k, Start(k), [], Pol(p, false), f)
    ensures var (g, st) := LowerFormula(k, Start(k), [], Pol(p, false), f).value;
      (Attains(k, st, b, g, p) <==> SrcHolds(b, [], f) == p) <==> ReadHolds(b, [], f) == SrcHolds(b, [], f)
  {
    hide LowerFormula, SrcHolds, ReadHolds;
    SkolemisationReads(k, b, p, f);
  }

  /** In particular for every goal none of whose groups captures a name of its own. */
  lemma SkolemisationPreserves(k: Tables, b: Inst, p: bool, f: SFormula)
    requires Given(k, b) && Lowered(k, Start(k), [], Pol(p, false), f) && CaptureFree(f)
    ensures var (g, st) := LowerFormula(k, Start(k), [], Pol(p, false), f).value;
      Attains(k, st, b, g, p) <==> SrcHolds(b, [], f) == p
  {
    hide LowerFormula, SrcHolds, ReadHolds, Holds;
    SkolemisationReads(k, b, p, f);
    LexicallyRead(b, [], f);
  }

  /** Blocked, nothing is minted and the lowered goal has the source's truth value outright. */
  lemma BlockedPreserves(k: Tables, b: Inst, p: bool, f: SFormula)
    requires Given(k, b) && LeavesFormula(k, f) && LowerFormula(k, Start(k), [], Pol(p, true), f).Some?
    ensures var (g, st) := LowerFormula(k, Start(k), [], Pol(p, true), f).value;
      st.skolems == [] && Holds(b, map[], g) == SrcHolds(b, [], f)
  {
    hide LowerFormula, LeavesFormula;
    FormulaFacts(k, Start(k), [], Pol(p, true), f);
    FormulaExact(k, Start(k), [], Pol(p, true), f, b, b, map[], []);
  }

  /** The same through the evaluator, whatever the overflow mode, bitwidth or `Int` atoms. */
  lemma SkolemisationEvaluated(k: Tables, b: Inst, p: bool, f: SFormula, c: Semantics.Ctx)
    requires Given(k, b) && Lowered(k, Start(k), [], Pol(p, false), f) && c.tr.univ == k.univ
    ensures var (g, st) := LowerFormula(k, Start(k), [], Pol(p, false), f).value;
      (exists i :: Extension(k, st, b, i) && Semantics.EvalFormula(c.(inst := i.rels), map[], true, [], g) == p)
      <==> ReadHolds(b, [], f) == p
  {
    hide LowerFormula, SrcHolds, ReadHolds, Holds;
    SkolemisationReads(k, b, p, f);
    FormulaFacts(k, Start(k), [], Pol(p, false), f);
    var (g, st) := LowerFormula(k, Start(k), [], Pol(p, false), f).value;
    forall i | Extension(k, st, b, i)
      ensures Semantics.EvalFormula(c.(inst := i.rels), map[], true, [], g) == Holds(i, map[], g)
    {
      FormulaMeaning(c.(inst := i.rels), map[], true, [], g);
    }
  }

  // ------------------------------------------------------------------ a captured group

  /** `let r = A | some r, s: set r | not (s in r)`: in the bound `r` is the let's relation. */
  function CapturedGoal(): SFormula {
    FLet([LetRel("r", SLeaf(Relation(0)))],
         FQuant(QuSome, [CapturedGroup()], FCompare(Subset, true, SName("s"), SName("r"))))
  }

  function OneAtom(): Tables {
    Tables(map[0 := Upper(1, {[0]})], 1, 1)
  }

  function FullAtom(): Inst {
    Inst(map[0 := {[0]}], 1)
  }

  /** `some x: A | some x`. */
  function PlainGoal(): SFormula {
    FQuant(QuSome, [SDecl(["x"], false, Each(SLeaf(Relation(0))))], FTest(TSome, SName("x")))
  }

  /** The theorem speaks of goals that do mint: this one is capture-free and gets one skolem relation. */
  lemma PlainGoalMints()
    ensures var k := OneAtom();
      && Given(k, FullAtom()) && Lowered(k, Start(k), [], Pol(true, false), PlainGoal())
      && LowerFormula(k, Start(k), [], Pol(true, false), PlainGoal()).value.1.skolems == [(1, Upper(1, {[0]}))]
  {
    hide LowerFormula;
    var k, st, pol, f := OneAtom(), Start(OneAtom()), Pol(true, false), PlainGoal();
    var o := PlainBinding();
    OneDeclBound(k, st, [], pol, f.decls[0], true);
    var g := PlainBody(o.st, o.bs);
    SomeUnfold(k, st, [], f, pol, o, g, o.st);
    assert LeafOk(k, Relation(0));
    PlainGoalClean();
  }

  lemma PlainBinding() returns (o: Bound)
    ensures BindDecl(OneAtom(), Start(OneAtom()), [], Pol(true, false), PlainGoal().decls[0], true) == Some(o)
    ensures o.bs == [("x", BExpr(Relation(1)))] && o.st.skolems == [(1, Upper(1, {[0]}))]
  {
    hide LowerFormula;
    var k, st, pol := OneAtom(), Start(OneAtom()), Pol(true, false);
    var d, u := PlainGoal().decls[0], Upper(1, {[0]});
    var st1 := MintSkolems(st, 1, u);
    var group := RelRange(1, 1);
    o := Bound([], [], SkolemCons(group, Relation(0)), PushExprs([], ["x"], group), st1);
    assert st1.skolems == [(1, u)] by { assert [] + [(1, u)] == [(1, u)]; }
    assert LowerRel(k, st, [], pol, d.bound.e) == Some((Relation(0), st));
    assert UpperOf(k, st, Relation(0), st.nextVar) == Some(u);
    assert GroupDisjoint(false, group) == [] && SkolemCons(group, Relation(0)) + [] == SkolemCons(group, Relation(0));
  }

  lemma PlainBody(st: LState, bs: Binders) returns (g: Formula)
    requires bs == [("x", BExpr(Relation(1)))]
    ensures LowerFormula(OneAtom(), st, bs, Pol(true, false), PlainGoal().body) == Some((g, st))
  {
    assert Find(bs, "x") == Some(0);
    g := MultTest(TSome, Relation(1));
    assert LowerRel(OneAtom(), st, bs, Pol(true, false), SName("x")) == Some((Relation(1), st));
  }

  lemma PlainGoalClean()
    ensures LeavesFormula(OneAtom(), PlainGoal()) && CaptureFree(PlainGoal())
  {
    hide LowerFormula;
    var f := PlainGoal();
    assert LeafOk(OneAtom(), Relation(0));
    assert f.decls[1..] == [];
  }

  function CapturedGroup(): SDecl {
    SDecl(["r", "s"], false, Marked(MSet, SName("r")))
  }

  /** Taking nothing for `r` and the atom for `s` satisfies the source. */
  lemma CapturedSource()
    ensures SrcHolds(FullAtom(), [], CapturedGoal())
  {
    var b, f, s := FullAtom(), CapturedGoal(), [("r", VRel({[0]}))];
    assert SrcLets(b, [], f.lets) == s by {
      assert f.lets[1..] == [] && SrcValue(b, [], SLeaf(Relation(0))) == {[0]};
      assert [] + [("r", VRel({[0]}))] == s;
    }
    var values := CapturedValues(b, s);
    OneExtends(b, s, CapturedGroup(), values);
    CapturedBody(b, s + Bind(["r", "s"], values));
    SourceQuant(b, s, f.body);
  }

  lemma CapturedValues(b: Inst, s: SEnv) returns (values: seq<TupleSet>)
    requires s == [("r", VRel({[0]}))]
    ensures Admissible(b, s, CapturedGroup(), values)
    ensures |values| == 2 && s + Bind(["r", "s"], values) == [("r", VRel({[0]})), ("r", VRel({})), ("s", VRel({[0]}))]
  {
    hide SrcHolds;
    values := [{}, {[0]}];
    assert Find(s, "r") == Some(0) && SrcValue(b, s, SName("r")) == {[0]};
    var bound := CapturedGroup().bound;
    assert InBound(bound, {[0]}, values[0]) && InBound(bound, {[0]}, values[1]);
  }

  lemma OneExtends(b: Inst, s: SEnv, d: SDecl, values: seq<TupleSet>)
    requires Admissible(b, s, d, values)
    ensures Extends(b, s, [d], s + Bind(d.names, values))
  {
    hide SrcHolds;
    var ds := [d];
    assert ds[0] == d && ds[1..] == [];
    assert Extends(b, s + Bind(ds[0].names, values), ds[1..], s + Bind(d.names, values));
  }

  lemma OneDeclBound(k: Tables, st: LState, bs: Binders, pol: Pol, d: SDecl, allowed: bool)
    ensures BindDecls(k, st, bs, pol, [d], allowed) == BindDecl(k, st, bs, pol, d, allowed)
  {
    hide LowerFormula;
    var ds := [d];
    assert ds[0] == d && ds[1..] == [];
    if BindDecl(k, st, bs, pol, d, allowed).Some? {
      var a := BindDecl(k, st, bs, pol, d, allowed).value;
      assert BindDecls(k, a.st, a.bs, pol, ds[1..], allowed) == Some(Bound([], [], [], a.bs, a.st));
      assert a.fo + [] == a.fo && a.disj + [] == a.disj && a.cons + [] == a.cons;
    }
  }

  lemma CapturedBody(b: Inst, s': SEnv)
    requires s' == [("r", VRel({[0]})), ("r", VRel({})), ("s", VRel({[0]}))]
    ensures SrcHolds(b, s', FCompare(Subset, true, SName("s"), SName("r")))
  {
    hide LowerFormula, Holds;
    FindPushed(s'[..2], s'[2], "s");
    FindPushed(s'[..2], s'[2], "r");
    FindPushed(s'[..1], s'[1], "r");
    assert s'[..2] + [s'[2]] == s' && s'[..1] + [s'[1]] == s'[..2];
    assert SrcValue(b, s', SName("s")) == {[0]} && SrcValue(b, s', SName("r")) == {};
    assert [0] in {[0]};
  }

  lemma CapturedQuant() returns (cons: seq<Formula>, g: Formula, st2: LState)
    ensures cons == [RelCompare(Subset, Relation(1), Relation(0)), RelCompare(Subset, Relation(2), Relation(1))]
    ensures g == Not(RelCompare(Subset, Relation(2), Relation(1)))
    ensures LowerFormula(OneAtom(), Start(OneAtom()), [("r", BExpr(Relation(0)))], Pol(true, false), CapturedGoal().body)
            == Some((And(cons + [g]), st2))
  {
    hide LowerFormula;
    var k, pol, f, d := OneAtom(), Pol(true, false), CapturedGoal().body, CapturedGroup();
    var st0, bs1 := Start(k), [("r", BExpr(Relation(0)))];
    var bs3;
    st2, cons, bs3 := CapturedMint();
    var o := Bound([], [], cons, bs3, st2);
    OneDeclBound(k, st0, bs1, pol, d, true);
    MarkedUngrouped(k, st0, bs1, pol, d, o);
    g := CapturedBodyLowered(st2, bs3);
    assert Guarded(QuSome, o, g) == And(cons + [g]) by { assert [] + cons == cons; }
    SomeUnfold(k, st0, bs1, f, pol, o, g, st2);
  }

  lemma MarkedUngrouped(k: Tables, st: LState, bs: Binders, pol: Pol, d: SDecl, m: Bound)
    requires d.bound.Marked? && !d.disj && MintMarked(k, st, bs, pol, d, d.names) == Some(m) && m.fo == [] && m.disj == []
    ensures BindDecl(k, st, bs, pol, d, true) == Some(m)
  {
    hide LowerFormula;
    assert m.cons + [] == m.cons;
  }

  lemma SomeUnfold(k: Tables, st: LState, bs: Binders, f: SFormula, pol: Pol, o: Bound, g: Formula, st2: LState)
    requires f.FQuant? && f.quant == QuSome && pol == Pol(true, false)
    requires BindDecls(k, st, bs, pol, f.decls, true) == Some(o)
    requires LowerFormula(k, o.st, o.bs, pol, f.body) == Some((g, st2))
    ensures LowerFormula(k, st, bs, pol, f) == Some((WrapQuants(QSome, o.fo, Guarded(QuSome, o, g)), st2))
  {
    assert EffectiveExistential(f.quant, pol) && BodyPol(f.quant, pol) == pol;
  }

  lemma CapturedBodyLowered(st: LState, bs: Binders) returns (g: Formula)
    requires bs == [("r", BExpr(Relation(0))), ("r", BExpr(Relation(1))), ("s", BExpr(Relation(2)))]
    ensures g == Not(RelCompare(Subset, Relation(2), Relation(1)))
    ensures LowerFormula(OneAtom(), st, bs, Pol(true, false), CapturedGoal().body.body) == Some((g, st))
  {
    FindPushed(bs[..2], bs[2], "r");
    assert bs[..2] + [bs[2]] == bs && Find(bs, "s") == Some(2) && Find(bs, "r") == Some(1);
    g := Not(RelCompare(Subset, Relation(2), Relation(1)));
  }

  /** The second bound is read under the first name just pushed, so the two constraints clash. */
  lemma CapturedLowering()
    ensures var r := LowerFormula(OneAtom(), Start(OneAtom()), [], Pol(true, false), CapturedGoal());
      r.Some? && forall i :: !Holds(i, map[], r.value.0)
  {
    hide Holds;
    var k, pol, f := OneAtom(), Pol(true, false), CapturedGoal();
    var st0, bs1 := Start(k), [("r", BExpr(Relation(0)))];
    assert PushLets(k, st0, [], pol, f.lets) == Some((bs1, st0)) by {
      assert f.lets[1..] == [];
      assert LowerRel(k, st0, [], pol, SLeaf(Relation(0))) == Some((Relation(0), st0));
      assert [] + [("r", BExpr(Relation(0)))] == bs1;
    }
    var cons, g, st2 := CapturedQuant();
    assert LowerFormula(k, st0, [], pol, f) == Some((And(cons + [g]), st2));
    forall i
      ensures !Holds(i, map[], And(cons + [g]))
    {
      Clash(i, cons, g);
    }
  }

  lemma Clash(i: Inst, cons: seq<Formula>, g: Formula)
    requires |cons| == 2 && g == Not(cons[1])
    ensures !Holds(i, map[], And(cons + [g]))
  {
    var parts := cons + [g];
    assert parts[1] == cons[1] && parts[2] == g;
  }

  lemma CapturedMint() returns (st2: LState, cons: seq<Formula>, bs3: Binders)
    ensures cons == [RelCompare(Subset, Relation(1), Relation(0)), RelCompare(Subset, Relation(2), Relation(1))]
    ensures bs3 == [("r", BExpr(Relation(0))), ("r", BExpr(Relation(1))), ("s", BExpr(Relation(2)))]
    ensures MintMarked(OneAtom(), Start(OneAtom()), [("r", BExpr(Relation(0)))], Pol(true, false), CapturedGroup(), ["r", "s"])
            == Some(Bound([], [], cons, bs3, st2))
  {
    hide LowerFormula;
    var k, pol, d := OneAtom(), Pol(true, false), CapturedGroup();
    var u := Upper(1, {[0]});
    var st0 := Start(k);
    var st1 := MintSkolems(st0, 1, u);
    st2 := MintSkolems(st1, 1, u);
    var bs1 := [("r", BExpr(Relation(0)))];
    var bs2 := [("r", BExpr(Relation(0))), ("r", BExpr(Relation(1)))];
    bs3 := [("r", BExpr(Relation(0))), ("r", BExpr(Relation(1))), ("s", BExpr(Relation(2)))];
    cons := [RelCompare(Subset, Relation(1), Relation(0)), RelCompare(Subset, Relation(2), Relation(1))];
    assert st1.skolems == [(1, u)] && st1.nextRel == 2;
    assert LowerRel(k, st0, bs1, pol, SName("r")) == Some((Relation(0), st0));
    assert LowerRel(k, st1, bs1, pol, SName("r")) == Some((Relation(0), st1));
    assert LowerRel(k, st1, bs2, pol, SName("r")) == Some((Relation(1), st1));
    assert LowerRel(k, st2, bs2, pol, SName("r")) == Some((Relation(1), st2));
    assert bs1 + [("r", BExpr(Relation(1)))] == bs2 && bs2 + [("s", BExpr(Relation(2)))] == bs3;
    assert UpperOf(k, st1, Relation(1), st1.nextVar) == Some(u) by { assert FindSkolem([(1, u)], 1) == Some(u); }
    assert ["r", "s"][1..] == ["s"] && ["s"][1..] == [];
    assert MintMarked(k, st2, bs3, pol, d, []) == Some(Bound([], [], [], bs3, st2));
    var last := [RelCompare(Subset, Relation(2), Relation(1))];
    assert MarkedCons(MSet, Relation(2), Relation(1)) == last && last + [] == last;
    assert MintMarked(k, st1, bs2, pol, d, ["s"]) == Some(Bound([], [], last, bs3, st2));
    assert MarkedCons(MSet, Relation(1), Relation(0)) + last == cons;
  }

  lemma CapturedShape()
    ensures Given(OneAtom(), FullAtom()) && LeavesFormula(OneAtom(), CapturedGoal()) && !CaptureFree(CapturedGoal())
  {
    var d := CapturedGroup();
    assert d.names[0] in FreeExpr(d.bound.e);
    assert [d][0] == d && !Uncaptured(d);
    assert !UncapturedAll([d]);
    assert LeafOk(OneAtom(), Relation(0));
  }

  /** So the two readings can differ: here the goal holds and no skolem value shows it. */
  lemma CaptureOccurs()
    ensures var r := LowerFormula(OneAtom(), Start(OneAtom()), [], Pol(true, false), CapturedGoal());
      && Given(OneAtom(), FullAtom()) && LeavesFormula(OneAtom(), CapturedGoal()) && r.Some?
      && !CaptureFree(CapturedGoal())
      && SrcHolds(FullAtom(), [], CapturedGoal()) && !Attains(OneAtom(), r.value.1, FullAtom(), r.value.0, true)
  {
    hide LowerFormula, SrcHolds, Holds;
    CapturedSource();
    CapturedLowering();
    CapturedShape();
  }
}
