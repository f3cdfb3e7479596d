/** What forbidding overflow means (crates/als-core/src/overflow_guard.rs): a quantifier over the bare `Int`
    domain ranges over the values at which its comparison does not overflow. */
module ForbidMode {
  import opened Wrappers
  import opened Algebra
  import opened LexOrder
  import opened Arithmetic
  import opened Ir
  import opened Folder
  import opened Semantics

  /** The innermost enclosing bare-`Int` quantifier whose variable is among these. */
  ghost predicate Innermost(frames: seq<QuantFrame>, vars: set<VarId>, j: nat) {
    && j < |frames| && frames[j].bareInt && frames[j].v in vars
    && forall i | j < i < |frames| :: !(frames[i].bareInt && frames[i].v in vars)
  }

  /** An overflow of an expression with these variables is one for a universal `Int` variable. */
  ghost predicate UnderUniversal(frames: seq<QuantFrame>, vars: set<VarId>) {
    exists j: nat :: Innermost(frames, vars, j) && frames[j].forall_
  }

  /** The code's backwards search finds the innermost such quantifier. */
  lemma {:induction false} ClassifyInnermost(frames: seq<QuantFrame>, vars: set<VarId>)
    ensures Classify(frames, vars) <==> UnderUniversal(frames, vars)
    decreases |frames|
  {
    if frames != [] {
      var m := |frames| - 1;
      var front := frames[..m];
      ClassifyInnermost(front, vars);
      if frames[m].bareInt && frames[m].v in vars {
        assert Innermost(frames, vars, m);
        forall j: nat | Innermost(frames, vars, j) ensures j == m {}
      } else {
        forall j: nat ensures Innermost(frames, vars, j) <==> Innermost(front, vars, j) {}
      }
    }
  }

  /** The innermost one decides alone: an overflow makes the comparison what keeps that quantifier going. */
  lemma InnermostDecides(pol: bool, frames: seq<QuantFrame>, j: nat, atom: bool, operand: IntExpr)
    requires Innermost(frames, IntVars(operand), j)
    ensures Guard(pol, frames, atom, true, operand) == (pol == frames[j].forall_)
  {
    ClassifyInnermost(frames, IntVars(operand));
    forall i: nat | Innermost(frames, IntVars(operand), i) ensures i == j {}
  }

  /** No such quantifier: an overflowing comparison is false where it is asserted, true under a negation. */
  lemma NoneExcludes(pol: bool, frames: seq<QuantFrame>, atom: bool, operand: IntExpr)
    requires forall j: nat :: !Innermost(frames, IntVars(operand), j)
    ensures Guard(pol, frames, atom, true, operand) == !pol
  {
    ClassifyInnermost(frames, IntVars(operand));
  }

  // ------------------------------------------------------------------ one quantifier over bare `Int`

  /** Two evaluated operands, neither of which overflowed. */
  predicate Clean(x: Flagged, y: Flagged) {
    !x.1 && !y.1
  }

  function Inner(c: Ctx, pol: bool, frames: seq<QuantFrame>, f: Formula): seq<QuantFrame>
    requires f.Quant?
  {
    frames + [Frame(c, pol, f.kind, f.v, f.bound)]
  }

  lemma FrameDecides(c: Ctx, pol: bool, frames: seq<QuantFrame>, f: Formula, atom: bool, operand: IntExpr)
    requires f.Quant? && IsBareInt(c, f.bound) && f.v in IntVars(operand)
    ensures Guard(pol, Inner(c, pol, frames, f), atom, true, operand) == (f.kind == QAll)
  {
    InnermostDecides(pol, Inner(c, pol, frames, f), |frames|, atom, operand);
  }

  /** The quantified comparison at one tuple, read under the quantifier. */
  ghost predicate BodyAt(c: Ctx, env: Env, pol: bool, frames: seq<QuantFrame>, f: Formula, t: Tuple)
    requires f.Quant?
  {
    EvalFormula(c, env[f.v := t], pol, Inner(c, pol, frames, f), f.body)
  }

  /** Neither operand overflows there. */
  ghost predicate CleanAt(c: Ctx, env: Env, pol: bool, frames: seq<QuantFrame>, f: Formula, t: Tuple)
    requires f.Quant? && f.body.IntCompare?
  {
    var inner := Inner(c, pol, frames, f);
    Clean(EvalInt(c, env[f.v := t], pol, inner, f.body.il), EvalInt(c, env[f.v := t], pol, inner, f.body.ir))
  }

  /** Their values compare. */
  ghost predicate ComparesAt(c: Ctx, env: Env, pol: bool, frames: seq<QuantFrame>, f: Formula, t: Tuple)
    requires f.Quant? && f.body.IntCompare?
  {
    var inner := Inner(c, pol, frames, f);
    CompareInts(f.body.iop, EvalInt(c, env[f.v := t], pol, inner, f.body.il).0, EvalInt(c, env[f.v := t], pol, inner, f.body.ir).0)
  }

  lemma QuantBody(c: Ctx, env: Env, pol: bool, frames: seq<QuantFrame>, f: Formula)
    requires f.Quant?
    ensures var range := EvalRel(c, env, pol, frames, f.bound);
      EvalFormula(c, env, pol, frames, f) <==>
        if f.kind == QAll then forall t | t in range :: BodyAt(c, env, pol, frames, f, t)
        else exists t | t in range :: BodyAt(c, env, pol, frames, f, t)
  {
    var range := EvalRel(c, env, pol, frames, f.bound);
    var inner := frames + [Frame(c, pol, f.kind, f.v, f.bound)];
    forall t | t in range
      ensures BodyAt(c, env, pol, frames, f, t) == EvalFormula(c, env[f.v := t], pol, inner, f.body)
    {
    }
    if f.kind == QAll {
      assert EvalFormula(c, env, pol, frames, f) <==> forall t | t in range :: EvalFormula(c, env[f.v := t], pol, inner, f.body);
    } else {
      assert EvalFormula(c, env, pol, frames, f) <==> exists t | t in range :: EvalFormula(c, env[f.v := t], pol, inner, f.body);
      if EvalFormula(c, env, pol, frames, f) {
        var t :| t in range && EvalFormula(c, env[f.v := t], pol, inner, f.body);
        assert BodyAt(c, env, pol, frames, f, t);
      }
    }
  }

  /** `all x: Int | l op r` asks the comparison of the values at which neither side overflows, and
      `some x: Int | l op r` finds one among those; so at either polarity and inside any quantifiers. */
  lemma BareIntQuantifier(c: Ctx, env: Env, pol: bool, frames: seq<QuantFrame>, f: Formula)
    requires f.Quant? && f.body.IntCompare? && IsBareInt(c, f.bound) && !c.allow
    requires f.v in IntVars(f.body.il) && f.v in IntVars(f.body.ir)
    ensures var range := RelationValue(c, f.bound.rel);
      EvalFormula(c, env, pol, frames, f) <==>
        if f.kind == QAll then forall t | t in range && CleanAt(c, env, pol, frames, f, t) :: ComparesAt(c, env, pol, frames, f, t)
        else exists t :: t in range && CleanAt(c, env, pol, frames, f, t) && ComparesAt(c, env, pol, frames, f, t)
  {
    hide EvalFormula;
    QuantBody(c, env, pol, frames, f);
    assert EvalRel(c, env, pol, frames, f.bound) == RelationValue(c, f.bound.rel);
    forall t
      ensures BodyAt(c, env, pol, frames, f, t)
              <==> if CleanAt(c, env, pol, frames, f, t) then ComparesAt(c, env, pol, frames, f, t) else f.kind == QAll
    {
      ComparisonDecided(c, env[f.v := t], pol, Inner(c, pol, frames, f), f.body, f.kind == QAll, |frames|, |frames|);
    }
  }

  /** The comparison of two evaluated operands, or the given answer when one overflowed. */
  function Decided(rescued: bool, op: IntCmpOp, x: Flagged, y: Flagged): bool {
    if Clean(x, y) then CompareInts(op, x.0, y.0) else rescued
  }

  /** A comparison both of whose operands are decided by quantifiers of one kind. */
  lemma ComparisonDecided(c: Ctx, env: Env, pol: bool, frames: seq<QuantFrame>, f: Formula, universal: bool, i: nat, j: nat)
    requires f.IntCompare? && !c.allow
    requires Innermost(frames, IntVars(f.il), i) && Innermost(frames, IntVars(f.ir), j)
    requires frames[i].forall_ == (universal == pol) && frames[j].forall_ == (universal == pol)
    ensures EvalFormula(c, env, pol, frames, f) == Decided(universal, f.iop, EvalInt(c, env, pol, frames, f.il), EvalInt(c, env, pol, frames, f.ir))
  {
    var x, y := EvalInt(c, env, pol, frames, f.il), EvalInt(c, env, pol, frames, f.ir);
    var atom := CompareInts(f.iop, x.0, y.0);
    InnermostDecides(pol, frames, i, atom, f.il);
    InnermostDecides(pol, frames, j, Guard(pol, frames, atom, x.1, f.il), f.ir);
    assert EvalFormula(c, env, pol, frames, f) == CompareVerdict(c.allow, pol, frames, f.iop, f.il, x, f.ir, y);
  }

  // ------------------------------------------------------------------ two nested quantifiers

  /** The kind of the inner quantifier if the operands mention its variable, and else of the outer one. */
  function Decider(f: Formula): QuantKind
    requires f.Quant? && f.body.Quant? && f.body.body.IntCompare?
  {
    if f.body.v in IntVars(f.body.body.il) then f.body.kind else f.kind
  }

  /** The innermost comparison at one environment, and its value when the decider is universal or not. */
  ghost predicate DecidedAt(c: Ctx, env: Env, pol: bool, frames: seq<QuantFrame>, f: Formula)
    requires f.Quant? && f.body.Quant? && f.body.body.IntCompare?
  {
    var inner, g := Inner(c, pol, Inner(c, pol, frames, f), f.body), f.body.body;
    EvalFormula(c, env, pol, inner, g) == Decided(Decider(f) == QAll, g.iop, EvalInt(c, env, pol, inner, g.il), EvalInt(c, env, pol, inner, g.ir))
  }

  /** Of two nested quantifiers over bare `Int` the innermost one the operands mention decides: the inner one
      if they mention its variable, and the outer one if they mention only that. */
  lemma NestedBareInt(c: Ctx, env: Env, pol: bool, frames: seq<QuantFrame>, f: Formula)
    requires f.Quant? && f.body.Quant? && f.body.body.IntCompare? && !c.allow && f.v != f.body.v
    requires IsBareInt(c, f.bound) && IsBareInt(c, f.body.bound)
    requires var l, r := IntVars(f.body.body.il), IntVars(f.body.body.ir);
      (f.body.v in l && f.body.v in r) || (f.body.v !in l && f.body.v !in r && f.v in l && f.v in r)
    ensures DecidedAt(c, env, pol, frames, f)
  {
    var g := f.body;
    var inner := Inner(c, pol, Inner(c, pol, frames, f), g);
    var j := if g.v in IntVars(g.body.il) then |frames| + 1 else |frames|;
    assert inner[|frames|] == Frame(c, pol, f.kind, f.v, f.bound) && inner[|frames| + 1] == Frame(c, pol, g.kind, g.v, g.bound);
    assert Innermost(inner, IntVars(g.body.il), j) && Innermost(inner, IntVars(g.body.ir), j);
    ComparisonDecided(c, env, pol, inner, g.body, Decider(f) == QAll, j, j);
  }

  // ------------------------------------------------------------------ tests guarded by casts

  /** Some surviving cast overflows. */
  ghost predicate SomeOverflows(c: Ctx, env: Env, pol: bool, frames: seq<QuantFrame>, casts: seq<IntExpr>) {
    exists ie :: ie in casts && EvalInt(c, env, pol, frames, ie).1
  }

  /** Casts that are all decided by quantifiers of one kind guard a test as one operand would. */
  lemma {:induction false} CastsDecided(c: Ctx, env: Env, pol: bool, frames: seq<QuantFrame>, owner: Formula, casts: seq<IntExpr>, atom: bool, universal: bool)
    requires forall ie | ie in casts :: (owner decreases to ie)
    requires forall ie | ie in casts :: UnderUniversal(frames, IntVars(ie)) == (universal == pol)
    ensures GuardCasts(c, env, pol, frames, owner, casts, atom) == if SomeOverflows(c, env, pol, frames, casts) then universal else atom
    decreases |casts|
  {
    hide EvalFormula, EvalInt, Classify, UnderUniversal, IntVars, SomeOverflows;
    NextOverflows(c, env, pol, frames, casts);
    if casts != [] {
      assert casts[0] in casts && forall ie | ie in casts[1..] :: ie in casts;
      ClassifyInnermost(frames, IntVars(casts[0]));
      var of := EvalInt(c, env, pol, frames, casts[0]).1;
      CastsDecided(c, env, pol, frames, owner, casts[1..], Guard(pol, frames, atom, of, casts[0]), universal);
    }
  }

  lemma NextOverflows(c: Ctx, env: Env, pol: bool, frames: seq<QuantFrame>, casts: seq<IntExpr>)
    ensures SomeOverflows(c, env, pol, frames, casts)
      <==> casts != [] && (EvalInt(c, env, pol, frames, casts[0]).1 || SomeOverflows(c, env, pol, frames, casts[1..]))
  {
    hide EvalInt;
    if casts != [] {
      assert casts == [casts[0]] + casts[1..];
      assert forall ie :: ie in casts <==> ie == casts[0] || ie in casts[1..];
    }
  }

  // ------------------------------------------------------------------ an example that relies on it

  lemma {:induction false} AccumulateInRange(bw: nat, values: seq<int>, acc: Flagged)
    requires bw >= 1 && InRange(acc.0, bw)
    ensures InRange(Accumulate(bw, values, acc).0, bw)
    decreases |values|
  {
    if values != [] {
      WrapLands(acc.0 + values[0], bw);
      AccumulateInRange(bw, values[1..], AddFlagged(acc, (values[0], false), bw));
    }
  }

  /** `all x: Int | plus[x, 1] > x`. */
  function SuccessorGrows(x: VarId, rel: RelId): Formula {
    Quant(QAll, x, Relation(rel), IntCompare(Gt, Successor(x), AtomToInt(Var(x))))
  }

  function Successor(x: VarId): IntExpr {
    IBin(Add, AtomToInt(Var(x)), IConst(1))
  }

  /** With overflow forbidden it holds at every bitwidth: the greatest value is left out. */
  lemma SuccessorGrowsHolds(c: Ctx, env: Env, x: VarId)
    requires c.tr.bw >= 1 && !c.allow && c.intSig.Some?
    ensures EvalFormula(c, env, true, [], SuccessorGrows(x, c.intSig.value))
  {
    hide EvalFormula, EvalInt;
    var f := SuccessorGrows(x, c.intSig.value);
    SuccessorMentions(x);
    BareIntQuantifier(c, env, true, [], f);
    forall t | CleanAt(c, env, true, [], f, t)
      ensures ComparesAt(c, env, true, [], f, t)
    {
      SuccessorValue(c, env[x := t], Inner(c, true, [], f), x);
    }
  }

  lemma SuccessorMentions(x: VarId)
    ensures x in IntVars(Successor(x)) && x in IntVars(AtomToInt(Var(x)))
  {
    assert IntVars(AtomToInt(Var(x))) == {x};
  }

  lemma SuccessorValue(c: Ctx, env: Env, frames: seq<QuantFrame>, x: VarId)
    requires c.tr.bw >= 1
    ensures var p := EvalInt(c, env, true, frames, Successor(x));
      !p.1 ==> p.0 == EvalInt(c, env, true, frames, AtomToInt(Var(x))).0 + 1
  {
    var bw, ts := c.tr.bw, EvalRel(c, env, true, frames, Var(x));
    var q := SetToInt(c.tr, ts);
    assert EvalInt(c, env, true, frames, AtomToInt(Var(x))) == q;
    assert InRange(0, bw);
    AccumulateInRange(bw, AtomInts(c.tr, Sorted(ts)), (0, false));
    var one := (WrapSigned(1, bw), ConstOverflows(1, bw));
    assert EvalInt(c, env, true, frames, IConst(1)) == one;
    assert EvalInt(c, env, true, frames, Successor(x)) == BinopFlagged(Add, q, one, bw);
    IncrementExact(q.0, bw);
  }

  lemma IncrementExact(a: int, bw: nat)
    requires bw >= 1 && InRange(a, bw)
    ensures var (v, of) := IntBinopValue(Add, a, WrapSigned(1, bw), bw);
      !of && !ConstOverflows(1, bw) ==> v == a + 1
  {
    if !ConstOverflows(1, bw) {
      WrapFixed(1, bw);
      FlagsAreExact(Add, a, 1, bw);
      if InRange(a + 1, bw) { WrapFixed(a + 1, bw); }
    }
  }
}
