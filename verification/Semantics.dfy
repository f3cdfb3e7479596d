/** The evaluator's three-sorted semantics over one concrete instance, with the forbid-overflow guard
    (crates/als-core/src/eval.rs). `pol` is the formula polarity and `frames` the enclosing
    quantifiers, innermost last. */
module Semantics {
  import opened Wrappers
  import opened Algebra
  import opened Closure
  import opened LexOrder
  import opened Arithmetic
  import opened Ir
  import opened Folder

  /** One instance with the command's evaluation parameters. */
  datatype Ctx = Ctx(inst: map<RelId, TupleSet>, tr: Trans, allow: bool,
                     intSig: Option<RelId>, seqIntSig: Option<RelId>, loopState: nat)

  ghost predicate WellFormed(c: Ctx) {
    && 1 <= c.tr.bw <= MAX_BITWIDTH
    && c.tr.intEnd == c.tr.intStart + Pow2(c.tr.bw) <= c.tr.univ
  }

  /** Every bounded relation lies between its bounds. */
  ghost predicate InsideBounds(c: Ctx) {
    forall r | r in c.tr.bounds ::
      r in c.inst && c.tr.bounds[r].lower <= c.inst[r] <= c.tr.bounds[r].upper
  }

  function RelationValue(c: Ctx, r: RelId): TupleSet {
    if r in c.inst then c.inst[r] else {}
  }

  function VarValue(env: Env, v: VarId): TupleSet {
    if v in env then {env[v]} else {}
  }

  function ConstValue(c: Ctx, k: RelConst): TupleSet {
    match k
    case CNone => {}
    case CUniv => UnivSet(c.tr.univ)
    case CIden => IdenSet(c.tr.univ)
  }

  function BinValue(op: RelBinOp, a: TupleSet, b: TupleSet): TupleSet {
    match op
    case Union => a + b
    case Diff => a - b
    case Intersect => a * b
    case JoinOp => Join(a, b)
    case ProductOp => Product(a, b)
    case OverrideOp => Override(a, b)
  }

  ghost function UnValue(c: Ctx, op: RelUnOp, a: TupleSet): TupleSet {
    match op
    case TransposeOp => Transpose(a)
    case ClosureOp => TransClosure(a)
    case ReflexiveClosure => TransClosure(a) + IdenSet(c.tr.univ)
  }

  /** The `Int` atom carrying a value, if the value has one. */
  function IntAtomSet(tr: Trans, value: int): TupleSet {
    set a | tr.intStart <= a < tr.intEnd && AtomInt(tr, a) == Some(value) :: [a]
  }

  function SetToInt(tr: Trans, a: TupleSet): Flagged {
    Accumulate(tr.bw, AtomInts(tr, Sorted(a)), (0, false))
  }

  predicate TestHolds(test: MultTest, a: TupleSet) {
    match test
    case TNo => a == {}
    case TSome => a != {}
    case TLone => |a| <= 1
    case TOne => |a| == 1
  }

  predicate CompareSets(op: RelCmpOp, a: TupleSet, b: TupleSet) {
    match op
    case Subset => a <= b
    case Equal => a == b
  }

  predicate IsBareInt(c: Ctx, bound: RelExpr) {
    bound.Relation? && (Some(bound.rel) == c.intSig || Some(bound.rel) == c.seqIntSig)
  }

  function Frame(c: Ctx, pol: bool, kind: QuantKind, v: VarId, bound: RelExpr): QuantFrame {
    QuantFrame(v, IsBareInt(c, bound), (kind == QAll) == pol)
  }

  /** Every variable an expression mentions; binder ids are unique, so binders never meet a frame. */
  function IntVars(i: IntExpr): set<VarId> {
    match i
    case IConst(_) => {}
    case Card(r) => RelVars(r)
    case AtomToInt(r) => RelVars(r)
    case Neg(j) => IntVars(j)
    case IBin(_, l, r) => IntVars(l) + IntVars(r)
    case Sum(_, bound, body) => RelVars(bound) + IntVars(body)
    case IIte(cond, t, e) => FormulaVars(cond) + IntVars(t) + IntVars(e)
  }

  function RelVars(r: RelExpr): set<VarId> {
    match r
    case Relation(_) => {}
    case Var(v) => {v}
    case RConst(_) => {}
    case RBin(_, l, rr) => RelVars(l) + RelVars(rr)
    case RUn(_, e) => RelVars(e)
    case RIte(cond, t, e) => FormulaVars(cond) + RelVars(t) + RelVars(e)
    case Comprehension(decls, body) =>
      (set k, v | 0 <= k < |decls| && v in RelVars(decls[k].bound) :: v) + FormulaVars(body)
    case IntToAtom(ie) => IntVars(ie)
  }

  function FormulaVars(f: Formula): set<VarId> {
    match f
    case Const(_) => {}
    case LoopIs(_) => {}
    case Not(g) => FormulaVars(g)
    case And(parts) => set k, v | 0 <= k < |parts| && v in FormulaVars(parts[k]) :: v
    case Or(parts) => set k, v | 0 <= k < |parts| && v in FormulaVars(parts[k]) :: v
    case Implies(a, k) => FormulaVars(a) + FormulaVars(k)
    case Iff(l, r) => FormulaVars(l) + FormulaVars(r)
    case RelCompare(_, l, r) => RelVars(l) + RelVars(r)
    case IntCompare(_, l, r) => IntVars(l) + IntVars(r)
    case MultTest(_, e) => RelVars(e)
    case Quant(_, _, bound, body) => RelVars(bound) + FormulaVars(body)
  }

  /** One operand's guard: an overflow rescues (forces true) or excludes (forces false), by the
      classification and the polarity. */
  function Guard(pol: bool, frames: seq<QuantFrame>, atom: bool, of: bool, operand: IntExpr): bool {
    if !of then atom else pol == Classify(frames, IntVars(operand))
  }

  /** A comparison of two evaluated integers, guarded by the left operand and then by the right one. */
  function CompareVerdict(allow: bool, pol: bool, frames: seq<QuantFrame>, op: IntCmpOp,
                          l: IntExpr, x: Flagged, r: IntExpr, y: Flagged): bool
  {
    var atom := CompareInts(op, x.0, y.0);
    if allow then atom else Guard(pol, frames, Guard(pol, frames, atom, x.1, l), y.1, r)
  }

  ghost function EvalFormula(c: Ctx, env: Env, pol: bool, frames: seq<QuantFrame>, f: Formula): bool
    decreases f, 1, 0
  {
    match f
    case Const(b) => b
    case Not(g) => !EvalFormula(c, env, !pol, frames, g)
    case And(parts) => forall k | 0 <= k < |parts| :: EvalFormula(c, env, pol, frames, parts[k])
    case Or(parts) => exists k | 0 <= k < |parts| :: EvalFormula(c, env, pol, frames, parts[k])
    case Implies(a, k) => EvalFormula(c, env, pol, frames, a) ==> EvalFormula(c, env, pol, frames, k)
    case Iff(l, r) => EvalFormula(c, env, pol, frames, l) == EvalFormula(c, env, pol, frames, r)
    case RelCompare(op, l, r) =>
      var atom := CompareSets(op, EvalRel(c, env, pol, frames, l), EvalRel(c, env, pol, frames, r));
      if c.allow then atom
      else
        var casts := Casts(c.tr, env, l) + Casts(c.tr, env, r);
        GuardCasts(c, env, pol, frames, f, casts, atom)
    case IntCompare(op, l, r) =>
      CompareVerdict(c.allow, pol, frames, op, l, EvalInt(c, env, pol, frames, l), r, EvalInt(c, env, pol, frames, r))
    case MultTest(test, e) =>
      var atom := TestHolds(test, EvalRel(c, env, pol, frames, e));
      if c.allow then atom
      else GuardCasts(c, env, pol, frames, f, TestCasts(c.tr, env, test, e), atom)
    case Quant(kind, v, bound, body) =>
      var range := EvalRel(c, env, pol, frames, bound);
      var inner := frames + [Frame(c, pol, kind, v, bound)];
      if kind == QAll
      then forall t | t in range :: EvalFormula(c, env[v := t], pol, inner, body)
      else exists t | t in range :: EvalFormula(c, env[v := t], pol, inner, body)
    case LoopIs(s) => s == c.loopState
  }

  ghost function GuardCasts(c: Ctx, env: Env, pol: bool, frames: seq<QuantFrame>, owner: Formula,
                            casts: seq<IntExpr>, atom: bool): bool
    requires forall ie | ie in casts :: (owner decreases to ie)
    decreases owner, 0, |casts|
  {
    if casts == [] then atom
    else
      assert casts[0] in casts && forall ie | ie in casts[1..] :: ie in casts;
      GuardCasts(c, env, pol, frames, owner, casts[1..],
                 Guard(pol, frames, atom, EvalInt(c, env, pol, frames, casts[0]).1, casts[0]))
  }

  ghost function EvalRel(c: Ctx, env: Env, pol: bool, frames: seq<QuantFrame>, r: RelExpr): TupleSet
    decreases r, 1, 0
  {
    match r
    case Relation(rel) => RelationValue(c, rel)
    case Var(v) => VarValue(env, v)
    case RConst(k) => ConstValue(c, k)
    case RBin(op, l, rr) => BinValue(op, EvalRel(c, env, pol, frames, l), EvalRel(c, env, pol, frames, rr))
    case RUn(op, e) => UnValue(c, op, EvalRel(c, env, pol, frames, e))
    case RIte(cond, t, e) =>
      if EvalFormula(c, env, pol, frames, cond)
      then EvalRel(c, env, pol, frames, t) else EvalRel(c, env, pol, frames, e)
    case Comprehension(_, _) => EvalDecls(c, env, pol, frames, r, 0, [])
    case IntToAtom(ie) =>
      var (v, of) := EvalInt(c, env, pol, frames, ie);
      if !c.allow && of && OverflowCapable(c.tr.bw, ie) then {} else IntAtomSet(c.tr, v)
  }

  /** The tuples a comprehension collects from its declaration `k` on, after `prefix`. */
  ghost function EvalDecls(c: Ctx, env: Env, pol: bool, frames: seq<QuantFrame>, r: RelExpr, k: nat, prefix: Tuple): TupleSet
    requires r.Comprehension? && k <= |r.decls|
    decreases r, 0, 2 * (|r.decls| - k)
  {
    if k == |r.decls| then (if EvalFormula(c, env, pol, frames, r.body) then {prefix} else {})
    else
      var range := EvalRel(c, env, pol, frames, r.decls[k].bound);
      set t, u | t in range && u in EvalBinding(c, env, pol, frames, r, k, prefix, t) :: u
  }

  ghost function EvalBinding(c: Ctx, env: Env, pol: bool, frames: seq<QuantFrame>, r: RelExpr, k: nat, prefix: Tuple, t: Tuple): TupleSet
    requires r.Comprehension? && k < |r.decls|
    decreases r, 0, 2 * (|r.decls| - k) - 1
  {
    EvalDecls(c, env[r.decls[k].v := t], pol, frames, r, k + 1, prefix + t)
  }

  /** A comprehension holds exactly the tuples some binding of its next declaration contributes. */
  lemma InDecls(c: Ctx, env: Env, pol: bool, frames: seq<QuantFrame>, r: RelExpr, k: nat, prefix: Tuple, u: Tuple)
    requires r.Comprehension? && k < |r.decls|
    ensures u in EvalDecls(c, env, pol, frames, r, k, prefix) ==>
            exists t :: t in EvalRel(c, env, pol, frames, r.decls[k].bound) && u in EvalBinding(c, env, pol, frames, r, k, prefix, t)
    ensures (exists t :: t in EvalRel(c, env, pol, frames, r.decls[k].bound) && u in EvalBinding(c, env, pol, frames, r, k, prefix, t))
            ==> u in EvalDecls(c, env, pol, frames, r, k, prefix)
  {
    var range := EvalRel(c, env, pol, frames, r.decls[k].bound);
    if u in EvalDecls(c, env, pol, frames, r, k, prefix) {
      var t :| t in range && u in EvalBinding(c, env, pol, frames, r, k, prefix, t);
    }
  }

  ghost function EvalInt(c: Ctx, env: Env, pol: bool, frames: seq<QuantFrame>, i: IntExpr): Flagged
    decreases i, 1, 0
  {
    match i
    case IConst(n) => (WrapSigned(n, c.tr.bw), ConstOverflows(n, c.tr.bw))
    case Card(r) =>
      var k := |EvalRel(c, env, pol, frames, r)|;
      var of := k > IntMax(c.tr.bw);
      (WrapSigned(k, c.tr.bw),
       of || (!c.allow && AnyOverflow(c, env, pol, frames, i, Casts(c.tr, env, r))))
    case AtomToInt(r) => SetToInt(c.tr, EvalRel(c, env, pol, frames, r))
    case Neg(j) => NegateFlagged(EvalInt(c, env, pol, frames, j), c.tr.bw)
    case IBin(op, l, r) =>
      BinopFlagged(op, EvalInt(c, env, pol, frames, l), EvalInt(c, env, pol, frames, r), c.tr.bw)
    case Sum(v, bound, body) =>
      EvalSum(c, env, pol, frames, i, Sorted(EvalRel(c, env, pol, frames, bound)), (0, false))
    case IIte(cond, t, e) =>
      if EvalFormula(c, env, pol, frames, cond)
      then EvalInt(c, env, pol, frames, t) else EvalInt(c, env, pol, frames, e)
  }

  ghost function AnyOverflow(c: Ctx, env: Env, pol: bool, frames: seq<QuantFrame>, owner: IntExpr, casts: seq<IntExpr>): bool
    requires forall ie | ie in casts :: (owner decreases to ie)
    decreases owner, 0, |casts|
  {
    if casts == [] then false
    else
      assert casts[0] in casts && forall ie | ie in casts[1..] :: ie in casts;
      EvalInt(c, env, pol, frames, casts[0]).1 || AnyOverflow(c, env, pol, frames, owner, casts[1..])
  }

  /** `sum`: the chained sum over the bound's tuples in order. */
  ghost function EvalSum(c: Ctx, env: Env, pol: bool, frames: seq<QuantFrame>, i: IntExpr, ts: seq<Tuple>, acc: Flagged): Flagged
    requires i.Sum?
    decreases i, 0, |ts|
  {
    if ts == [] then acc
    else
      var x := EvalInt(c, env[i.v := ts[0]], pol, frames, i.body);
      EvalSum(c, env, pol, frames, i, ts[1..], AddFlagged(acc, x, c.tr.bw))
  }

  /** The unbounded sum of the body over tuples. */
  ghost function Total(c: Ctx, env: Env, pol: bool, frames: seq<QuantFrame>, i: IntExpr, ts: seq<Tuple>): int
    requires i.Sum?
  {
    if ts == [] then 0
    else EvalInt(c, env[i.v := ts[0]], pol, frames, i.body).0 + Total(c, env, pol, frames, i, ts[1..])
  }

  /** No body is flagged and no partial sum leaves the range. */
  ghost predicate SumFits(c: Ctx, env: Env, pol: bool, frames: seq<QuantFrame>, i: IntExpr, ts: seq<Tuple>, from: int)
    requires i.Sum?
  {
    && (forall j | 0 <= j < |ts| :: !EvalInt(c, env[i.v := ts[j]], pol, frames, i.body).1)
    && (forall n | 0 < n <= |ts| :: PartialFits(c, env, pol, frames, i, ts, n, from))
  }

  ghost predicate PartialFits(c: Ctx, env: Env, pol: bool, frames: seq<QuantFrame>, i: IntExpr, ts: seq<Tuple>, n: nat, from: int)
    requires i.Sum? && n <= |ts|
  {
    InRange(from + Total(c, env, pol, frames, i, ts[..n]), c.tr.bw)
  }

  /** `sum` is the unbounded sum, wrapped; unflagged exactly when every body is and every partial sum in the
      walk's order fits, and then it is the unbounded sum itself. */
  lemma {:induction false} SumExact(c: Ctx, env: Env, pol: bool, frames: seq<QuantFrame>, i: IntExpr, ts: seq<Tuple>, acc: Flagged)
    requires i.Sum? && c.tr.bw >= 1 && InRange(acc.0, c.tr.bw)
    ensures var r := EvalSum(c, env, pol, frames, i, ts, acc);
      && r.0 == WrapSigned(acc.0 + Total(c, env, pol, frames, i, ts), c.tr.bw)
      && (!r.1 <==> !acc.1 && SumFits(c, env, pol, frames, i, ts, acc.0))
      && (!r.1 ==> r.0 == acc.0 + Total(c, env, pol, frames, i, ts))
    decreases |ts|
  {
    hide EvalInt, WrapSigned, InRange;
    if ts == [] {
      WrapFixed(acc.0, c.tr.bw);
    } else {
      var x := EvalInt(c, env[i.v := ts[0]], pol, frames, i.body);
      var next := AddFlagged(acc, x, c.tr.bw);
      var rest := Total(c, env, pol, frames, i, ts[1..]);
      WrapLands(acc.0 + x.0, c.tr.bw);
      WrapFixed(acc.0 + x.0, c.tr.bw);
      SumExact(c, env, pol, frames, i, ts[1..], next);
      WrapAdd(acc.0 + x.0, rest, c.tr.bw);
      FitsFrom(c, env, pol, frames, i, ts, acc.0);
    }
  }

  lemma WrapAdd(a: int, b: int, bw: nat)
    requires bw >= 1
    ensures WrapSigned(WrapSigned(a, bw) + b, bw) == WrapSigned(a + b, bw)
  {
    WrapLands(a, bw);
    var m, w := Pow2(bw), WrapSigned(a, bw);
    ModMul(w, a, 1, m);
    var k := a / m - w / m;
    assert a == w + k * m;
    ModShift(w + b, k, m);
    WrapCongruent(w + b, a + b, bw);
  }

  /** A partial sum of the whole is the first value and a partial sum of the rest. */
  lemma LaterPartial(c: Ctx, env: Env, pol: bool, frames: seq<QuantFrame>, i: IntExpr, ts: seq<Tuple>, n: nat, from: int)
    requires i.Sum? && n < |ts|
    ensures PartialFits(c, env, pol, frames, i, ts, n + 1, from)
         == PartialFits(c, env, pol, frames, i, ts[1..], n, from + EvalInt(c, env[i.v := ts[0]], pol, frames, i.body).0)
  {
    hide EvalInt, InRange;
    assert ts[..n + 1][1..] == ts[1..][..n];
  }

  /** The first partial sum fits and the others fit from there. */
  lemma FitsFrom(c: Ctx, env: Env, pol: bool, frames: seq<QuantFrame>, i: IntExpr, ts: seq<Tuple>, from: int)
    requires i.Sum? && ts != []
    ensures var x := EvalInt(c, env[i.v := ts[0]], pol, frames, i.body);
      SumFits(c, env, pol, frames, i, ts, from)
      <==> !x.1 && InRange(from + x.0, c.tr.bw) && SumFits(c, env, pol, frames, i, ts[1..], from + x.0)
  {
    var x := EvalInt(c, env[i.v := ts[0]], pol, frames, i.body);
    var rest, next := ts[1..], from + x.0;
    assert PartialFits(c, env, pol, frames, i, rest, 0, next) == InRange(next, c.tr.bw);
    hide EvalInt, InRange, PartialFits;
    LaterPartial(c, env, pol, frames, i, ts, 0, from);
    if SumFits(c, env, pol, frames, i, ts, from) {
      assert PartialFits(c, env, pol, frames, i, ts, 1, from);
      forall n | 0 < n <= |rest| ensures PartialFits(c, env, pol, frames, i, rest, n, next) {
        LaterPartial(c, env, pol, frames, i, ts, n, from);
        assert PartialFits(c, env, pol, frames, i, ts, n + 1, from);
      }
      forall j | 0 <= j < |rest| ensures !EvalInt(c, env[i.v := rest[j]], pol, frames, i.body).1 {
        assert rest[j] == ts[j + 1];
      }
    }
    if !x.1 && InRange(next, c.tr.bw) && SumFits(c, env, pol, frames, i, rest, next) {
      forall n | 0 < n <= |ts| ensures PartialFits(c, env, pol, frames, i, ts, n, from) {
        LaterPartial(c, env, pol, frames, i, ts, n - 1, from);
        assert n > 1 ==> PartialFits(c, env, pol, frames, i, rest, n - 1, next);
      }
      forall j | 0 <= j < |ts| ensures !EvalInt(c, env[i.v := ts[j]], pol, frames, i.body).1 {
        if j > 0 { assert rest[j - 1] == ts[j]; }
      }
    }
  }

  /** Negation flags exactly the value whose opposite does not fit, and undoes itself. */
  lemma NegationExact(x: Flagged, bw: nat)
    requires bw >= 1 && InRange(x.0, bw)
    ensures var y := NegateFlagged(x, bw);
      && InRange(y.0, bw) && (y.1 <==> x.1 || !InRange(-x.0, bw)) && (InRange(-x.0, bw) ==> y.0 == -x.0)
      && NegateFlagged(y, bw).0 == x.0
  {
    var y := NegateFlagged(x, bw);
    WrapLands(-x.0, bw);
    WrapFixed(-x.0, bw);
    if InRange(-x.0, bw) {
      WrapFixed(x.0, bw);
    } else {
      assert -x.0 == Pow2(bw - 1);
      DivModUnique(-x.0, Pow2(bw), 0, Pow2(bw - 1));
      assert y.0 == x.0;
    }
  }
}
