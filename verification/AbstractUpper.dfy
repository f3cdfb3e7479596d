/** The lowerer's tables and its abstract upper bounds (crates/als-core/src/lower.rs): a static set of
    tuples no value of the expression can leave, through earlier skolems and variable bounds. */
module AbstractUpper {
  import opened Wrappers
  import opened Algebra
  import opened Closure
  import opened Ir
  import opened Folder
  import opened Plain
  import opened Freshness
  import Semantics

  /** A tuple set together with its arity. */
  datatype Upper = Upper(arity: nat, tuples: TupleSet)

  /** What the bounds phase hands over: the bounded relations, all below `nextRel`, and the universe. */
  datatype Tables = Tables(base: map<RelId, Upper>, nextRel: nat, univ: nat)

  /** The lowerer's growing tables: allocation marks, minted skolems and the variables' bounds. */
  datatype LState = LState(nextVar: nat, nextRel: nat, skolems: seq<(RelId, Upper)>, varBound: map<VarId, RelExpr>)

  ghost predicate ValidState(k: Tables, st: LState) {
    && (forall r | r in k.base :: r < k.nextRel)
    && st.nextRel == k.nextRel + |st.skolems|
    && (forall j | 0 <= j < |st.skolems| :: st.skolems[j].0 == k.nextRel + j)
    && (forall v | v in st.varBound :: v < st.nextVar && BelowRel(st.varBound[v], v, st.nextRel))
  }

  function FindSkolem(skolems: seq<(RelId, Upper)>, r: RelId): Option<Upper> {
    if skolems == [] then None
    else if skolems[0].0 == r then Some(skolems[0].1)
    else FindSkolem(skolems[1..], r)
  }

  // Arity mismatches cannot come out of the type checker; the source answers them with `None`.

  function UnionUpper(a: Upper, b: Upper): Option<Upper> {
    if a.arity != b.arity then None else Some(Upper(a.arity, a.tuples + b.tuples))
  }

  function IntersectUpper(a: Upper, b: Upper): Option<Upper> {
    if a.arity != b.arity then None else Some(Upper(a.arity, a.tuples * b.tuples))
  }

  function JoinUpper(a: Upper, b: Upper): Option<Upper> {
    if (a.arity < 2 && b.arity < 2) || a.arity + b.arity < 3 then None
    else Some(Upper(a.arity + b.arity - 2, Join(a.tuples, b.tuples)))
  }

  function TransposeUpper(a: Upper): Option<Upper> {
    if a.arity != 2 then None else Some(Upper(2, Transpose(a.tuples)))
  }

  ghost function ClosureUpper(a: Upper): Option<Upper> {
    if a.arity != 2 then None else Some(Upper(2, TransClosure(a.tuples)))
  }

  /** A sound upper bound, or `None` where the shape has no static one. A variable's bound mentions only
      variables allocated before it, so descending into it lowers the mark `n` and the recursion ends. */
  ghost function UpperOf(k: Tables, st: LState, r: RelExpr, n: nat): Option<Upper>
    decreases n, r
  {
    match r
    case Relation(rel) => if rel in k.base then Some(k.base[rel]) else FindSkolem(st.skolems, rel)
    case RConst(CNone) => Some(Upper(1, {}))
    case RConst(CUniv) => Some(Upper(1, UnivSet(k.univ)))
    case RConst(CIden) => Some(Upper(2, IdenSet(k.univ)))
    case RBin(op, l, rr) =>
      var a :- UpperOf(k, st, l, n);
      (match op
       case Diff => Some(a)
       case Intersect =>
         (match UpperOf(k, st, rr, n)
          case Some(b) => IntersectUpper(a, b)
          case None => Some(a))
       case ProductOp =>
         var b :- UpperOf(k, st, rr, n);
         Some(Upper(a.arity + b.arity, Product(a.tuples, b.tuples)))
       case Union => var b :- UpperOf(k, st, rr, n); UnionUpper(a, b)
       case OverrideOp => var b :- UpperOf(k, st, rr, n); UnionUpper(a, b)
       case JoinOp => var b :- UpperOf(k, st, rr, n); JoinUpper(a, b))
    case RUn(op, e) =>
      var a :- UpperOf(k, st, e, n);
      (match op
       case TransposeOp => TransposeUpper(a)
       case ClosureOp => ClosureUpper(a)
       case ReflexiveClosure => var c :- ClosureUpper(a); UnionUpper(c, Upper(2, IdenSet(k.univ))))
    case Var(v) => if v in st.varBound && v < n then UpperOf(k, st, st.varBound[v], v) else None
    case RIte(_, _, _) => None
    case Comprehension(_, _) => None
    case IntToAtom(_) => None
  }

  /** Every relation, minted or not, stays inside its upper bound. */
  ghost predicate InstInside(k: Tables, st: LState, i: Inst) {
    && i.univ == k.univ
    && (forall r | r in k.base :: RelValue(i, r) <= k.base[r].tuples)
    && (forall j | 0 <= j < |st.skolems| :: RelValue(i, st.skolems[j].0) <= st.skolems[j].1.tuples)
  }

  /** Every bound variable's tuple lies in its declared bound. */
  ghost predicate EnvInside(st: LState, i: Inst, env: Env) {
    forall v | v in env && v in st.varBound :: env[v] in Value(i, env, st.varBound[v])
  }

  /** The mark never cuts the search short: in a valid state any mark above the expression's variables
      gives the same bound. */
  lemma {:induction false} MarkIrrelevant(k: Tables, st: LState, r: RelExpr, n: nat, n': nat)
    requires ValidState(k, st) && BelowRel(r, n, st.nextRel) && n <= n'
    ensures UpperOf(k, st, r, n) == UpperOf(k, st, r, n')
    decreases r
  {
    match r
    case RBin(_, l, rr) => MarkIrrelevant(k, st, l, n, n'); MarkIrrelevant(k, st, rr, n, n');
    case RUn(_, e) => MarkIrrelevant(k, st, e, n, n');
    case _ =>
  }

  lemma {:induction false} FoundSkolem(skolems: seq<(RelId, Upper)>, r: RelId)
    requires FindSkolem(skolems, r).Some?
    ensures exists j :: 0 <= j < |skolems| && skolems[j] == (r, FindSkolem(skolems, r).value)
  {
    if skolems[0].0 != r {
      FoundSkolem(skolems[1..], r);
      var j :| 0 <= j < |skolems[1..]| && skolems[1..][j] == (r, FindSkolem(skolems, r).value);
      assert skolems[j + 1] == skolems[1..][j];
    }
  }

  lemma BinMonotone(op: RelBinOp, a: TupleSet, b: TupleSet, a': TupleSet, b': TupleSet)
    requires a <= a'
    ensures op == Diff ==> Semantics.BinValue(op, a, b) <= a'
    ensures op == Intersect ==> Semantics.BinValue(op, a, b) <= a'
    ensures op == Intersect && b <= b' ==> Semantics.BinValue(op, a, b) <= a' * b'
    ensures op == ProductOp && b <= b' ==> Semantics.BinValue(op, a, b) <= Product(a', b')
    ensures (op == Union || op == OverrideOp) && b <= b' ==> Semantics.BinValue(op, a, b) <= a' + b'
    ensures op == JoinOp && b <= b' ==> Semantics.BinValue(op, a, b) <= Join(a', b')
  {
    if b <= b' {
      JoinMonotone(a, b, a', b');
      ProductMonotone(a, b, a', b');
    }
  }

  /** The abstract bound is sound for every instance inside the bounds and every environment whose
      variables lie in their declared bounds. */
  lemma {:induction false} UpperSound(k: Tables, st: LState, i: Inst, env: Env, r: RelExpr, n: nat)
    requires ValidState(k, st) && BelowRel(r, n, st.nextRel)
    requires InstInside(k, st, i) && EnvInside(st, i, env)
    requires UpperOf(k, st, r, n).Some?
    ensures Value(i, env, r) <= UpperOf(k, st, r, n).value.tuples
    decreases n, r
  {
    match r
    case Relation(rel) =>
      if rel !in k.base { FoundSkolem(st.skolems, rel); }
    case RBin(op, l, rr) =>
      UpperSound(k, st, i, env, l, n);
      var a := UpperOf(k, st, l, n).value;
      if UpperOf(k, st, rr, n).Some? {
        UpperSound(k, st, i, env, rr, n);
        BinMonotone(op, Value(i, env, l), Value(i, env, rr), a.tuples, UpperOf(k, st, rr, n).value.tuples);
      } else {
        BinMonotone(op, Value(i, env, l), Value(i, env, rr), a.tuples, {});
      }
    case RUn(op, e) =>
      UpperSound(k, st, i, env, e, n);
      ClosureMonotone(Value(i, env, e), UpperOf(k, st, e, n).value.tuples);
    case Var(v) =>
      if v in env { UpperSound(k, st, i, env, st.varBound[v], v); }
    case _ =>
  }

  /** What the bound stands for: a difference may keep all of its left side, an override all of both sides,
      an intersection with an unbounded side all of the other, and a variable any tuple of its bound. */
  ghost function Relaxed(k: Tables, st: LState, r: RelExpr, n: nat): RelExpr
    decreases n, r
  {
    match r
    case RBin(op, l, rr) =>
      var l', r' := Relaxed(k, st, l, n), Relaxed(k, st, rr, n);
      (match op
       case Diff => l'
       case OverrideOp => RBin(Union, l', r')
       case Intersect => if UpperOf(k, st, rr, n).Some? then RBin(Intersect, l', r') else l'
       case _ => RBin(op, l', r'))
    case RUn(op, e) => RUn(op, Relaxed(k, st, e, n))
    case Var(v) => if v in st.varBound && v < n then Relaxed(k, st, st.varBound[v], v) else r
    case _ => r
  }

  /** Every relation takes all its bound allows. */
  ghost predicate AtUppers(k: Tables, st: LState, i: Inst) {
    && i.univ == k.univ
    && (forall r | r in k.base :: RelValue(i, r) == k.base[r].tuples)
    && (forall j | 0 <= j < |st.skolems| :: RelValue(i, st.skolems[j].0) == st.skolems[j].1.tuples)
  }

  /** The bound gives nothing away: it is the relaxed expression's value where every relation takes all its
      bound allows. */
  lemma {:induction false} UpperTight(k: Tables, st: LState, i: Inst, env: Env, r: RelExpr, n: nat)
    requires ValidState(k, st) && BelowRel(r, n, st.nextRel) && AtUppers(k, st, i)
    requires UpperOf(k, st, r, n).Some?
    ensures UpperOf(k, st, r, n).value.tuples == Value(i, env, Relaxed(k, st, r, n))
    decreases n, r
  {
    hide Join, Product, Transpose, UnivSet, IdenSet;
    match r
    case Relation(rel) =>
      if rel !in k.base { FoundSkolem(st.skolems, rel); }
    case RBin(_, l, rr) =>
      UpperTight(k, st, i, env, l, n);
      if UpperOf(k, st, rr, n).Some? { UpperTight(k, st, i, env, rr, n); }
    case RUn(_, e) => UpperTight(k, st, i, env, e, n);
    case Var(v) => UpperTight(k, st, i, env, st.varBound[v], v);
    case _ =>
  }
}
