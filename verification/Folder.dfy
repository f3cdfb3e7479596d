/** The translation-time constant folder and the surviving-cast collector
    (crates/als-core/src/overflow_guard.rs). */
module Folder {
  import opened Wrappers
  import opened Algebra
  import opened LexOrder
  import opened Arithmetic
  import opened Ir

  datatype RelBound = RelBound(lower: TupleSet, upper: TupleSet)

  /** The translation-time inputs: bounds, bitwidth, the integer atoms and the universe size. */
  datatype Trans = Trans(bounds: map<RelId, RelBound>, bw: nat, intStart: nat, intEnd: nat, univ: nat)

  type Env = map<VarId, Tuple>

  datatype Emptiness = Empty | NonEmpty | Unknown

  predicate ConstOverflows(n: int, bw: nat) {
    n < IntMin(bw) || n > IntMax(bw)
  }

  /** Whether an integer expression can overflow: arithmetic, `sum`, cardinality, or a literal out
      of range. */
  predicate OverflowCapable(bw: nat, i: IntExpr) {
    match i
    case IConst(n) => ConstOverflows(n, bw)
    case AtomToInt(_) => false
    case Card(_) => true
    case Neg(_) => true
    case IBin(_, _, _) => true
    case Sum(_, _, _) => true
    case IIte(_, t, e) => OverflowCapable(bw, t) || OverflowCapable(bw, e)
  }

  function AtomInt(c: Trans, a: Atom): Option<int> {
    if a < c.intStart || a >= c.intEnd || c.bw == 0 then None
    else Some(a - c.intStart - Pow2(c.bw - 1))
  }

  /** The integer values a set contributes, in tuple order. */
  function AtomInts(c: Trans, ts: seq<Tuple>): seq<int> {
    if ts == [] then []
    else
      (match if |ts[0]| == 1 then AtomInt(c, ts[0][0]) else None
       case Some(n) => [n]
       case None => []) + AtomInts(c, ts[1..])
  }

  /** The chained two's-complement sum: a step leaving the range raises the flag. */
  function Accumulate(bw: nat, values: seq<int>, acc: Flagged): Flagged
    decreases |values|
  {
    if values == [] then acc
    else Accumulate(bw, values[1..], AddFlagged(acc, (values[0], false), bw))
  }

  /** Structural equality, claimed only for the shapes whose circuits the factory shares. One arena
      node reached twice is the same tree. */
  predicate SameExpr(a: RelExpr, b: RelExpr) {
    a == b ||
    match (a, b)
    case (RBin(xo, xl, xr), RBin(yo, yl, yr)) => xo == yo && SameExpr(xl, yl) && SameExpr(xr, yr)
    case (RUn(xo, xe), RUn(yo, ye)) => xo == yo && SameExpr(xe, ye)
    case _ => false
  }

  function BinaryEmptiness(op: RelBinOp, l: Emptiness, r: Emptiness, same: bool): Emptiness {
    match op
    case Union =>
      if l == Empty && r == Empty then Empty
      else if l == NonEmpty || r == NonEmpty then NonEmpty
      else Unknown
    case OverrideOp =>
      if l == Empty && r == Empty then Empty
      else if r == NonEmpty || (r == Empty && l == NonEmpty) then NonEmpty
      else Unknown
    case Intersect => if l == Empty || r == Empty then Empty else Unknown
    case JoinOp => if l == Empty || r == Empty then Empty else Unknown
    case ProductOp =>
      if l == Empty || r == Empty then Empty
      else if l == NonEmpty && r == NonEmpty then NonEmpty
      else Unknown
    case Diff =>
      if l == Empty || same then Empty
      else if l == NonEmpty && r == Empty then NonEmpty
      else Unknown
  }

  /** Three-valued emptiness of an expression's translated matrix. */
  function FoldEmptiness(c: Trans, env: Env, r: RelExpr): Emptiness
    decreases r, 1, 0
  {
    match r
    case RConst(k) =>
      if k == CNone then Empty else if c.univ == 0 then Empty else NonEmpty
    case Var(v) => if v in env then NonEmpty else Unknown
    case Relation(rel) =>
      if rel !in c.bounds then Unknown
      else if c.bounds[rel].lower != {} then NonEmpty
      else if c.bounds[rel].upper == {} then Empty
      else Unknown
    case IntToAtom(ie) =>
      (match FoldInt(c, env, ie)
       case Some(p) => if p.1 then Empty else NonEmpty
       case None => Unknown)
    case RBin(op, l, rr) =>
      BinaryEmptiness(op, FoldEmptiness(c, env, l), FoldEmptiness(c, env, rr), SameExpr(l, rr))
    case RUn(op, e) => if op == ReflexiveClosure then Unknown else FoldEmptiness(c, env, e)
    case RIte(cond, t, e) =>
      (match FoldFormula(c, env, cond)
       case Some(b) => if b then FoldEmptiness(c, env, t) else FoldEmptiness(c, env, e)
       case None =>
         if FoldEmptiness(c, env, t) == Empty && FoldEmptiness(c, env, e) == Empty then Empty else Unknown)
    case Comprehension(_, _) => Unknown
  }

  /** The constant value and overflow flag of an integer expression. */
  function FoldInt(c: Trans, env: Env, i: IntExpr): Option<Flagged>
    decreases i, 1, 0
  {
    match i
    case IConst(n) => Some((WrapSigned(n, c.bw), ConstOverflows(n, c.bw)))
    case Card(r) =>
      var k :- FoldCard(c, env, r);
      var of :- FoldCasts(c, env, i, Casts(c, env, r), k > IntMax(c.bw));
      Some((WrapSigned(k, c.bw), of))
    case AtomToInt(r) =>
      var values :- FoldAtomInts(c, env, r);
      Some(Accumulate(c.bw, values, (0, false)))
    case Neg(j) =>
      var p :- FoldInt(c, env, j);
      Some(NegateFlagged(p, c.bw))
    case IBin(op, l, r) =>
      var p :- FoldInt(c, env, l);
      var q :- FoldInt(c, env, r);
      Some(BinopFlagged(op, p, q, c.bw))
    case Sum(_, _, _) => None
    case IIte(cond, t, e) =>
      var b :- FoldFormula(c, env, cond);
      if b then FoldInt(c, env, t) else FoldInt(c, env, e)
  }

  /** Merges the casts' flags into `of`, left to right; once it is up the rest is not consulted. */
  function FoldCasts(c: Trans, env: Env, owner: IntExpr, casts: seq<IntExpr>, of: bool): Option<bool>
    requires forall ie | ie in casts :: (owner decreases to ie)
    decreases owner, 0, |casts|
  {
    if casts == [] then Some(of)
    else if of then Some(true)
    else
      assert casts[0] in casts && forall ie | ie in casts[1..] :: ie in casts;
      var p :- FoldInt(c, env, casts[0]);
      FoldCasts(c, env, owner, casts[1..], p.1)
  }

  /** The exact translation-time cardinality. */
  function FoldCard(c: Trans, env: Env, r: RelExpr): Option<int>
    decreases r, 2, 0
  {
    if FoldEmptiness(c, env, r) == Empty then Some(0)
    else
      match r
      case Var(v) => if v in env then Some(1) else None
      case Relation(rel) =>
        if rel in c.bounds && c.bounds[rel].lower == c.bounds[rel].upper then Some(|c.bounds[rel].lower|) else None
      case IntToAtom(_) => if FoldEmptiness(c, env, r) == NonEmpty then Some(1) else None
      case _ => None
  }

  /** The integer values a constant-valued set contributes, in tuple order. */
  function FoldAtomInts(c: Trans, env: Env, r: RelExpr): Option<seq<int>>
    decreases r, 2, 0
  {
    match r
    case RConst(k) => if k == CNone then Some([]) else None
    case Var(v) => if v in env then Some(AtomInts(c, [env[v]])) else None
    case Relation(rel) =>
      if rel in c.bounds && c.bounds[rel].lower == c.bounds[rel].upper
      then Some(AtomInts(c, Sorted(c.bounds[rel].lower))) else None
    case IntToAtom(ie) =>
      var p :- FoldInt(c, env, ie);
      Some(if p.1 then [] else [p.0])
    case _ => None
  }

  /** The constant truth value of a formula. */
  function FoldFormula(c: Trans, env: Env, f: Formula): Option<bool>
    decreases f, 1, 0
  {
    match f
    case Const(b) => Some(b)
    case Not(g) =>
      var b :- FoldFormula(c, env, g);
      Some(!b)
    case And(parts) => FoldJunction(c, env, f, parts, false, true)
    case Or(parts) => FoldJunction(c, env, f, parts, true, true)
    case Implies(a, k) =>
      var p, q := FoldFormula(c, env, a), FoldFormula(c, env, k);
      if p == Some(false) || q == Some(true) then Some(true)
      else if p == Some(true) && q.Some? then q
      else None
    case Iff(l, r) =>
      var p :- FoldFormula(c, env, l);
      var q :- FoldFormula(c, env, r);
      Some(p == q)
    case IntCompare(op, l, r) =>
      var p, q := FoldInt(c, env, l), FoldInt(c, env, r);
      if p.Some? && q.Some? && !p.value.1 && !q.value.1 then Some(CompareInts(op, p.value.0, q.value.0)) else None
    case MultTest(test, e) => FoldTest(test, FoldEmptiness(c, env, e))
    case RelCompare(_, _, _) => None
    case Quant(_, _, _, _) => None
    case LoopIs(_) => None
  }

  function FoldTest(test: MultTest, e: Emptiness): Option<bool> {
    match (test, e)
    case (TNo, Empty) => Some(true)
    case (TLone, Empty) => Some(true)
    case (TSome, NonEmpty) => Some(true)
    case (TNo, NonEmpty) => Some(false)
    case (TOne, Empty) => Some(false)
    case (TSome, Empty) => Some(false)
    case _ => None
  }

  /** An absorbing part decides a junction at once; otherwise every part must fold. */
  function FoldJunction(c: Trans, env: Env, owner: Formula, parts: seq<Formula>, absorbing: bool, known: bool): Option<bool>
    requires forall p | p in parts :: (owner decreases to p)
    decreases owner, 0, |parts|
  {
    if parts == [] then (if known then Some(!absorbing) else None)
    else
      assert parts[0] in parts && forall p | p in parts[1..] :: p in parts;
      match FoldFormula(c, env, parts[0])
      case Some(b) =>
        if b == absorbing then Some(absorbing) else FoldJunction(c, env, owner, parts[1..], absorbing, known)
      case None => FoldJunction(c, env, owner, parts[1..], absorbing, false)
  }

  /** The overflow-capable casts whose circuit survives the matrix folding up to the reader. */
  function Casts(c: Trans, env: Env, r: RelExpr): (casts: seq<IntExpr>)
    ensures forall ie | ie in casts :: (r decreases to ie) && OverflowCapable(c.bw, ie)
    decreases r, 2, 0
  {
    match r
    case IntToAtom(ie) => if OverflowCapable(c.bw, ie) then [ie] else []
    case RBin(op, l, rr) =>
      if op == Union then
        if FoldEmptiness(c, env, l) == Empty then Casts(c, env, rr)
        else if FoldEmptiness(c, env, rr) == Empty then Casts(c, env, l)
        else Casts(c, env, l) + Casts(c, env, rr)
      else if op == OverrideOp then
        if FoldEmptiness(c, env, rr) != Empty then Casts(c, env, l) + Casts(c, env, rr) else Casts(c, env, l)
      else Casts(c, env, l) + Casts(c, env, rr)
    case RUn(_, e) => Casts(c, env, e)
    case RIte(cond, t, e) =>
      (match FoldFormula(c, env, cond)
       case Some(b) => if b then Casts(c, env, t) else Casts(c, env, e)
       case None => Casts(c, env, t) + Casts(c, env, e))
    case _ => []
  }

  /** A reader that answers before the guard sheds every cast under it. */
  function TestCasts(c: Trans, env: Env, test: MultTest, e: RelExpr): (casts: seq<IntExpr>)
    ensures forall ie | ie in casts :: (e decreases to ie) && OverflowCapable(c.bw, ie)
  {
    var sheds := match test
      case TLone => FoldEmptiness(c, env, e) == Empty
      case TOne => FoldEmptiness(c, env, e) == Empty
      case TSome => FoldEmptiness(c, env, e) == NonEmpty
      case TNo => false;
    if sheds then [] else Casts(c, env, e)
  }

  /** One enclosing quantifier: its variable, whether its domain is literally `Int`, and its kind
      after polarity. */
  datatype QuantFrame = QuantFrame(v: VarId, bareInt: bool, forall_: bool)

  /** Whether an overflowing operand rescues: its innermost bare-`Int` binder is universal. */
  function Classify(frames: seq<QuantFrame>, free: set<VarId>): bool {
    if frames == [] then false
    else
      var last := frames[|frames| - 1];
      if last.bareInt && last.v in free then last.forall_
      else Classify(frames[..|frames| - 1], free)
  }
}
