/** The three-sorted intermediate representation (crates/als-core/src/ir.rs) as trees. Temporal
    connectives and primed expressions never reach the phases modelled here. */
module Ir {
  import opened Arithmetic

  type RelId = nat
  type VarId = nat

  datatype QuantKind = QAll | QSome
  datatype RelCmpOp = Subset | Equal
  datatype IntCmpOp = Eq | Lt | Le | Gt | Ge
  datatype MultTest = TNo | TSome | TLone | TOne
  datatype RelConst = CNone | CUniv | CIden
  datatype RelBinOp = Union | Diff | Intersect | JoinOp | ProductOp | OverrideOp
  datatype RelUnOp = TransposeOp | ClosureOp | ReflexiveClosure

  datatype Formula =
    | Const(b: bool)
    | Not(f: Formula)
    | And(parts: seq<Formula>)
    | Or(parts: seq<Formula>)
    | Implies(ante: Formula, cons: Formula)
    | Iff(left: Formula, right: Formula)
    | RelCompare(rop: RelCmpOp, rl: RelExpr, rr: RelExpr)
    | IntCompare(iop: IntCmpOp, il: IntExpr, ir: IntExpr)
    | MultTest(test: MultTest, e: RelExpr)
    | Quant(kind: QuantKind, v: VarId, bound: RelExpr, body: Formula)
    | LoopIs(state: nat)

  datatype RelExpr =
    | Relation(rel: RelId)
    | Var(v: VarId)
    | RConst(c: RelConst)
    | RBin(op: RelBinOp, l: RelExpr, r: RelExpr)
    | RUn(uop: RelUnOp, e: RelExpr)
    | RIte(cond: Formula, t: RelExpr, els: RelExpr)
    | Comprehension(decls: seq<CompDecl>, body: Formula)
    | IntToAtom(ie: IntExpr)

  datatype CompDecl = CompDecl(v: VarId, bound: RelExpr)

  datatype IntExpr =
    | IConst(n: int)
    | Card(r: RelExpr)
    | AtomToInt(r: RelExpr)
    | Neg(i: IntExpr)
    | IBin(op: IntBinOp, l: IntExpr, r2: IntExpr)
    | Sum(v: VarId, bound: RelExpr, body: IntExpr)
    | IIte(cond: Formula, t: IntExpr, els: IntExpr)

  function CompareInts(op: IntCmpOp, a: int, b: int): bool {
    match op
    case Eq => a == b
    case Lt => a < b
    case Le => a <= b
    case Gt => a > b
    case Ge => a >= b
  }

  /** Exactly one of less, equal and greater holds; the weak orders are the negated strict ones, and swapping
      the operands swaps the orders. */
  lemma CompareTrichotomy(a: int, b: int)
    ensures CompareInts(Eq, a, b) <==> a == b
    ensures CompareInts(Lt, a, b) <==> a - b < 0
    ensures CompareInts(Gt, a, b) <==> !CompareInts(Lt, a, b) && !CompareInts(Eq, a, b)
    ensures CompareInts(Le, a, b) <==> !CompareInts(Gt, a, b)
    ensures CompareInts(Ge, a, b) <==> !CompareInts(Lt, a, b)
    ensures CompareInts(Lt, a, b) == CompareInts(Gt, b, a) && CompareInts(Le, a, b) == CompareInts(Ge, b, a)
  {
  }
}
