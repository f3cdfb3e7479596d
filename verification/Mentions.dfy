/** The variables an operand mentions (crates/als-core/src/overflow_guard.rs): the guard asks which enclosing
    quantifiers they belong to, and for that the free ones are all that matter. */
module Mentions {
  import opened Ir
  import opened Folder
  import opened Semantics
  import opened FreeVariables
  import opened ForbidMode

  /** The variables bound inside. */
  function BoundF(f: Formula): set<VarId> {
    match f
    case Const(_) => {}
    case LoopIs(_) => {}
    case Not(g) => BoundF(g)
    case And(parts) => set k, v | 0 <= k < |parts| && v in BoundF(parts[k]) :: v
    case Or(parts) => set k, v | 0 <= k < |parts| && v in BoundF(parts[k]) :: v
    case Implies(a, k) => BoundF(a) + BoundF(k)
    case Iff(l, r) => BoundF(l) + BoundF(r)
    case RelCompare(_, l, r) => BoundR(l) + BoundR(r)
    case IntCompare(_, l, r) => BoundI(l) + BoundI(r)
    case MultTest(_, e) => BoundR(e)
    case Quant(_, v, bound, body) => {v} + BoundR(bound) + BoundF(body)
  }

  function BoundR(r: RelExpr): set<VarId> {
    match r
    case Relation(_) => {}
    case Var(_) => {}
    case RConst(_) => {}
    case RBin(_, l, rr) => BoundR(l) + BoundR(rr)
    case RUn(_, e) => BoundR(e)
    case RIte(cond, t, e) => BoundF(cond) + BoundR(t) + BoundR(e)
    case Comprehension(decls, body) =>
      DeclVars(decls) + (set k, v | 0 <= k < |decls| && v in BoundR(decls[k].bound) :: v) + BoundF(body)
    case IntToAtom(ie) => BoundI(ie)
  }

  function BoundI(i: IntExpr): set<VarId> {
    match i
    case IConst(_) => {}
    case Card(r) => BoundR(r)
    case AtomToInt(r) => BoundR(r)
    case Neg(j) => BoundI(j)
    case IBin(_, l, r) => BoundI(l) + BoundI(r)
    case Sum(v, bound, body) => {v} + BoundR(bound) + BoundI(body)
    case IIte(cond, t, e) => BoundF(cond) + BoundI(t) + BoundI(e)
  }

  lemma {:induction false} PartsMention(parts: seq<Formula>)
    requires forall k | 0 <= k < |parts| :: FreeF(parts[k]) <= FormulaVars(parts[k]) <= FreeF(parts[k]) + BoundF(parts[k])
    ensures forall v | v in FreeParts(parts) :: exists k :: 0 <= k < |parts| && v in FormulaVars(parts[k])
    ensures forall k, v | 0 <= k < |parts| && v in FormulaVars(parts[k]) :: v in FreeParts(parts) || v in BoundF(parts[k])
    decreases |parts|
  {
    hide FreeF, FormulaVars, BoundF;
    if parts != [] {
      var last := |parts| - 1;
      assert FreeF(parts[last]) <= FormulaVars(parts[last]);
      PartsMention(parts[..last]);
      forall k | 0 <= k < |parts| ensures FreeF(parts[k]) <= FreeParts(parts) { InFreeParts(parts, k); }
      forall v | v in FreeParts(parts) ensures exists k :: 0 <= k < |parts| && v in FormulaVars(parts[k]) {
        if v in FreeParts(parts[..|parts| - 1]) {
          var k :| 0 <= k < |parts| - 1 && v in FormulaVars(parts[..|parts| - 1][k]);
          assert v in FormulaVars(parts[k]);
        } else {
          assert v in FreeF(parts[last]);
          assert v in FormulaVars(parts[last]);
        }
      }
    }
  }

  lemma {:induction false} BoundsMention(decls: seq<CompDecl>)
    requires forall k | 0 <= k < |decls| :: FreeR(decls[k].bound) <= RelVars(decls[k].bound) <= FreeR(decls[k].bound) + BoundR(decls[k].bound)
    ensures forall v | v in FreeBounds(decls) :: exists k :: 0 <= k < |decls| && v in RelVars(decls[k].bound)
    ensures forall k, v | 0 <= k < |decls| && v in RelVars(decls[k].bound) :: v in FreeBounds(decls) || v in BoundR(decls[k].bound)
    decreases |decls|
  {
    hide FreeR, RelVars, BoundR;
    if decls != [] {
      var last := |decls| - 1;
      assert FreeR(decls[last].bound) <= RelVars(decls[last].bound);
      BoundsMention(decls[..last]);
      forall k | 0 <= k < |decls| ensures FreeR(decls[k].bound) <= FreeBounds(decls) { InFreeBounds(decls, k); }
      forall v | v in FreeBounds(decls) ensures exists k :: 0 <= k < |decls| && v in RelVars(decls[k].bound) {
        if v in FreeBounds(decls[..|decls| - 1]) {
          var k :| 0 <= k < |decls| - 1 && v in RelVars(decls[..|decls| - 1][k].bound);
          assert v in RelVars(decls[k].bound);
        } else {
          assert v in FreeBound(decls[last]);
          assert v in RelVars(decls[last].bound);
        }
      }
    }
  }

  /** Mentioned are the free variables and perhaps some bound inside. */
  lemma {:induction false} MentionsF(f: Formula)
    ensures FreeF(f) <= FormulaVars(f) <= FreeF(f) + BoundF(f)
  {
    match f
    case Not(g) => MentionsF(g);
    case And(parts) => forall k | 0 <= k < |parts| { MentionsF(parts[k]); } PartsMention(parts);
    case Or(parts) => forall k | 0 <= k < |parts| { MentionsF(parts[k]); } PartsMention(parts);
    case Implies(a, k) => MentionsF(a); MentionsF(k);
    case Iff(l, r) => MentionsF(l); MentionsF(r);
    case RelCompare(_, l, r) => MentionsR(l); MentionsR(r);
    case IntCompare(_, l, r) => MentionsI(l); MentionsI(r);
    case MultTest(_, e) => MentionsR(e);
    case Quant(_, _, bound, body) => MentionsR(bound); MentionsF(body);
    case _ =>
  }

  lemma {:induction false} MentionsR(r: RelExpr)
    ensures FreeR(r) <= RelVars(r) <= FreeR(r) + BoundR(r)
  {
    match r
    case RBin(_, l, rr) => MentionsR(l); MentionsR(rr);
    case RUn(_, e) => MentionsR(e);
    case RIte(cond, t, e) => MentionsF(cond); MentionsR(t); MentionsR(e);
    case Comprehension(decls, body) =>
      forall k | 0 <= k < |decls| { MentionsR(decls[k].bound); }
      BoundsMention(decls);
      MentionsF(body);
    case IntToAtom(ie) => MentionsI(ie);
    case _ =>
  }

  lemma {:induction false} MentionsI(i: IntExpr)
    ensures FreeI(i) <= IntVars(i) <= FreeI(i) + BoundI(i)
  {
    match i
    case Card(r) => MentionsR(r);
    case AtomToInt(r) => MentionsR(r);
    case Neg(j) => MentionsI(j);
    case IBin(_, l, r) => MentionsI(l); MentionsI(r);
    case Sum(_, bound, body) => MentionsR(bound); MentionsI(body);
    case IIte(cond, t, e) => MentionsF(cond); MentionsI(t); MentionsI(e);
    case _ =>
  }

  /** Ids being unique, no quantifier in scope is bound again inside an operand; so the guard's verdict is the
      one its free variables give. */
  lemma GuardReadsFree(frames: seq<QuantFrame>, i: IntExpr)
    requires forall j | 0 <= j < |frames| :: frames[j].v !in BoundI(i)
    ensures Classify(frames, IntVars(i)) <==> UnderUniversal(frames, FreeI(i))
  {
    MentionsI(i);
    ClassifyInnermost(frames, IntVars(i));
    forall j: nat ensures Innermost(frames, IntVars(i), j) <==> Innermost(frames, FreeI(i), j) {}
  }
}
