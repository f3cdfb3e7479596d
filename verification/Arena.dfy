/** The IR as three arenas of nodes that share sub-expressions (crates/als-core/src/ir.rs), read as the
    trees they unfold to, and the memoising free-variable analysis (crates/als-core/src/freevars.rs). */
module Arena {
  import opened Wrappers
  import opened Arithmetic
  import opened Ir
  import opened FreeVariables

  datatype FNode =
    | NConst(b: bool)
    | NNot(f: nat)
    | NAnd(parts: seq<nat>)
    | NOr(parts: seq<nat>)
    | NImplies(ante: nat, cons: nat)
    | NIff(left: nat, right: nat)
    | NRelCompare(rop: RelCmpOp, rl: nat, rr: nat)
    | NIntCompare(iop: IntCmpOp, il: nat, ir: nat)
    | NMultTest(test: MultTest, e: nat)
    | NQuant(kind: QuantKind, v: VarId, bound: nat, body: nat)
    | NLoopIs(state: nat)

  datatype RNode =
    | NRelation(rel: RelId)
    | NVar(v: VarId)
    | NRConst(c: RelConst)
    | NRBin(op: RelBinOp, l: nat, r: nat)
    | NRUn(uop: RelUnOp, e: nat)
    | NRIte(cond: nat, t: nat, els: nat)
    | NComprehension(decls: seq<NDecl>, body: nat)
    | NIntToAtom(ie: nat)

  datatype NDecl = NDecl(v: VarId, bound: nat)

  datatype INode =
    | NIConst(n: int)
    | NCard(r: nat)
    | NAtomToInt(r: nat)
    | NNeg(i: nat)
    | NIBin(op: IntBinOp, l: nat, r2: nat)
    | NSum(v: VarId, bound: nat, body: nat)
    | NIIte(cond: nat, t: nat, els: nat)

  datatype Nodes = Nodes(formulas: seq<FNode>, rels: seq<RNode>, ints: seq<INode>)

  /** How high each node stands: above its children, whichever arena they are in. */
  datatype Ranks = Ranks(f: seq<nat>, r: seq<nat>, i: seq<nat>)

  ghost predicate BelowF(a: Nodes, rk: Ranks, id: nat, n: nat) {
    id < |a.formulas| == |rk.f| && rk.f[id] < n
  }

  ghost predicate BelowR(a: Nodes, rk: Ranks, id: nat, n: nat) {
    id < |a.rels| == |rk.r| && rk.r[id] < n
  }

  ghost predicate BelowI(a: Nodes, rk: Ranks, id: nat, n: nat) {
    id < |a.ints| == |rk.i| && rk.i[id] < n
  }

  ghost predicate GoodF(a: Nodes, rk: Ranks, node: FNode, n: nat) {
    match node
    case NConst(_) => true
    case NLoopIs(_) => true
    case NNot(f) => BelowF(a, rk, f, n)
    case NAnd(parts) => forall k | 0 <= k < |parts| :: BelowF(a, rk, parts[k], n)
    case NOr(parts) => forall k | 0 <= k < |parts| :: BelowF(a, rk, parts[k], n)
    case NImplies(x, y) => BelowF(a, rk, x, n) && BelowF(a, rk, y, n)
    case NIff(x, y) => BelowF(a, rk, x, n) && BelowF(a, rk, y, n)
    case NRelCompare(_, x, y) => BelowR(a, rk, x, n) && BelowR(a, rk, y, n)
    case NIntCompare(_, x, y) => BelowI(a, rk, x, n) && BelowI(a, rk, y, n)
    case NMultTest(_, e) => BelowR(a, rk, e, n)
    case NQuant(_, _, bound, body) => BelowR(a, rk, bound, n) && BelowF(a, rk, body, n)
  }

  ghost predicate GoodR(a: Nodes, rk: Ranks, node: RNode, n: nat) {
    match node
    case NRelation(_) => true
    case NVar(_) => true
    case NRConst(_) => true
    case NRBin(_, x, y) => BelowR(a, rk, x, n) && BelowR(a, rk, y, n)
    case NRUn(_, e) => BelowR(a, rk, e, n)
    case NRIte(c, x, y) => BelowF(a, rk, c, n) && BelowR(a, rk, x, n) && BelowR(a, rk, y, n)
    case NComprehension(decls, body) =>
      (forall k | 0 <= k < |decls| :: BelowR(a, rk, decls[k].bound, n)) && BelowF(a, rk, body, n)
    case NIntToAtom(ie) => BelowI(a, rk, ie, n)
  }

  ghost predicate GoodI(a: Nodes, rk: Ranks, node: INode, n: nat) {
    match node
    case NIConst(_) => true
    case NCard(r) => BelowR(a, rk, r, n)
    case NAtomToInt(r) => BelowR(a, rk, r, n)
    case NNeg(i) => BelowI(a, rk, i, n)
    case NIBin(_, x, y) => BelowI(a, rk, x, n) && BelowI(a, rk, y, n)
    case NSum(_, bound, body) => BelowR(a, rk, bound, n) && BelowI(a, rk, body, n)
    case NIIte(c, x, y) => BelowF(a, rk, c, n) && BelowI(a, rk, x, n) && BelowI(a, rk, y, n)
  }

  /** A node is allocated after its children, so children stand lower. */
  ghost predicate GoodArena(a: Nodes, rk: Ranks) {
    && |rk.f| == |a.formulas| && |rk.r| == |a.rels| && |rk.i| == |a.ints|
    && (forall id | 0 <= id < |a.formulas| :: GoodF(a, rk, a.formulas[id], rk.f[id]))
    && (forall id | 0 <= id < |a.rels| :: GoodR(a, rk, a.rels[id], rk.r[id]))
    && (forall id | 0 <= id < |a.ints| :: GoodI(a, rk, a.ints[id], rk.i[id]))
  }

  // ------------------------------------------------------------------ the trees the nodes unfold to

  ghost function TreeF(a: Nodes, rk: Ranks, id: nat): Formula
    requires GoodArena(a, rk) && id < |a.formulas|
    decreases rk.f[id]
  {
    assert GoodF(a, rk, a.formulas[id], rk.f[id]);
    match a.formulas[id]
    case NConst(b) => Const(b)
    case NNot(f) => Not(TreeF(a, rk, f))
    case NAnd(parts) =>
      And(seq(|parts|, k requires 0 <= k < |parts| => assert BelowF(a, rk, parts[k], rk.f[id]); TreeF(a, rk, parts[k])))
    case NOr(parts) =>
      Or(seq(|parts|, k requires 0 <= k < |parts| => assert BelowF(a, rk, parts[k], rk.f[id]); TreeF(a, rk, parts[k])))
    case NImplies(x, y) => Implies(TreeF(a, rk, x), TreeF(a, rk, y))
    case NIff(x, y) => Iff(TreeF(a, rk, x), TreeF(a, rk, y))
    case NRelCompare(op, x, y) => RelCompare(op, TreeR(a, rk, x), TreeR(a, rk, y))
    case NIntCompare(op, x, y) => IntCompare(op, TreeI(a, rk, x), TreeI(a, rk, y))
    case NMultTest(test, e) => MultTest(test, TreeR(a, rk, e))
    case NQuant(kind, v, bound, body) => Quant(kind, v, TreeR(a, rk, bound), TreeF(a, rk, body))
    case NLoopIs(s) => LoopIs(s)
  }

  ghost function TreeR(a: Nodes, rk: Ranks, id: nat): RelExpr
    requires GoodArena(a, rk) && id < |a.rels|
    decreases rk.r[id]
  {
    assert GoodR(a, rk, a.rels[id], rk.r[id]);
    match a.rels[id]
    case NRelation(rel) => Relation(rel)
    case NVar(v) => Var(v)
    case NRConst(c) => RConst(c)
    case NRBin(op, x, y) => RBin(op, TreeR(a, rk, x), TreeR(a, rk, y))
    case NRUn(op, e) => RUn(op, TreeR(a, rk, e))
    case NRIte(c, x, y) => RIte(TreeF(a, rk, c), TreeR(a, rk, x), TreeR(a, rk, y))
    case NComprehension(decls, body) =>
      Comprehension(
        seq(|decls|, k requires 0 <= k < |decls| =>
          assert BelowR(a, rk, decls[k].bound, rk.r[id]); CompDecl(decls[k].v, TreeR(a, rk, decls[k].bound))),
        TreeF(a, rk, body))
    case NIntToAtom(ie) => IntToAtom(TreeI(a, rk, ie))
  }

  ghost function TreeI(a: Nodes, rk: Ranks, id: nat): IntExpr
    requires GoodArena(a, rk) && id < |a.ints|
    decreases rk.i[id]
  {
    assert GoodI(a, rk, a.ints[id], rk.i[id]);
    match a.ints[id]
    case NIConst(n) => IConst(n)
    case NCard(r) => Card(TreeR(a, rk, r))
    case NAtomToInt(r) => AtomToInt(TreeR(a, rk, r))
    case NNeg(i) => Neg(TreeI(a, rk, i))
    case NIBin(op, x, y) => IBin(op, TreeI(a, rk, x), TreeI(a, rk, y))
    case NSum(v, bound, body) => Sum(v, TreeR(a, rk, bound), TreeI(a, rk, body))
    case NIIte(c, x, y) => IIte(TreeF(a, rk, c), TreeI(a, rk, x), TreeI(a, rk, y))
  }

  // ------------------------------------------------------------------ the memoising analysis

  type Slots = seq<Option<set<VarId>>>

  ghost predicate SlotsF(a: Nodes, rk: Ranks, s: Slots)
    requires GoodArena(a, rk)
  {
    |s| == |a.formulas| && forall id | 0 <= id < |s| && s[id].Some? :: s[id].value == FreeF(TreeF(a, rk, id))
  }

  ghost predicate SlotsR(a: Nodes, rk: Ranks, s: Slots)
    requires GoodArena(a, rk)
  {
    |s| == |a.rels| && forall id | 0 <= id < |s| && s[id].Some? :: s[id].value == FreeR(TreeR(a, rk, id))
  }

  ghost predicate SlotsI(a: Nodes, rk: Ranks, s: Slots)
    requires GoodArena(a, rk)
  {
    |s| == |a.ints| && forall id | 0 <= id < |s| && s[id].Some? :: s[id].value == FreeI(TreeI(a, rk, id))
  }

  /** Slots filled are kept. */
  ghost predicate Filled(s: Slots, s': Slots) {
    |s| == |s'| && forall id | 0 <= id < |s| && s[id].Some? :: s'[id] == s[id]
  }

  lemma FreeOfNext(parts: seq<Formula>, k: nat)
    requires k < |parts|
    ensures FreeParts(parts[..k + 1]) == FreeParts(parts[..k]) + FreeF(parts[k])
  {
    assert parts[..k + 1][..k] == parts[..k];
  }

  lemma FreeOfNextBound(decls: seq<CompDecl>, k: nat)
    requires k < |decls|
    ensures FreeBounds(decls[..k + 1]) == FreeBounds(decls[..k]) + FreeR(decls[k].bound)
    ensures DeclVars(decls[..k + 1]) == DeclVars(decls[..k]) + {decls[k].v}
  {
    assert decls[..k + 1][..k] == decls[..k];
  }

  class FreeVarsBuilder {
    const a: Nodes
    ghost const rk: Ranks
    var formulas: Slots
    var rels: Slots
    var ints: Slots

    ghost predicate Valid()
      reads this
    {
      GoodArena(a, rk) && SlotsF(a, rk, formulas) && SlotsR(a, rk, rels) && SlotsI(a, rk, ints)
    }

    constructor (nodes: Nodes, ghost ranks: Ranks)
      requires GoodArena(nodes, ranks)
      ensures Valid() && a == nodes && rk == ranks
    {
      a, rk := nodes, ranks;
      formulas := seq(|nodes.formulas|, _ => None);
      rels := seq(|nodes.rels|, _ => None);
      ints := seq(|nodes.ints|, _ => None);
    }

    twostate predicate Grew()
      reads this
    {
      Filled(old(formulas), formulas) && Filled(old(rels), rels) && Filled(old(ints), ints)
    }

    /** A formula node's free variables, computed once. */
    method FormulaOf(id: nat) returns (free: set<VarId>)
      requires Valid() && id < |a.formulas|
      modifies this
      ensures Valid() && Grew() && free == FreeF(TreeF(a, rk, id)) && formulas[id] == Some(free)
      decreases rk.f[id], 2
    {
      if formulas[id].Some? {
        assert formulas[id] == Some(formulas[id].value);
        return formulas[id].value;
      }
      free := FormulaBody(id);
      formulas := formulas[id := Some(free)];
    }

    method FormulaBody(id: nat) returns (free: set<VarId>)
      requires Valid() && id < |a.formulas|
      modifies this
      ensures Valid() && Grew() && free == FreeF(TreeF(a, rk, id))
      decreases rk.f[id], 1
    {
      hide SlotsF, SlotsR, SlotsI;
      assert GoodF(a, rk, a.formulas[id], rk.f[id]);
      free := {};
      match a.formulas[id] {
        case NConst(_) =>
        case NLoopIs(_) =>
        case NNot(f) => free := FormulaOf(f);
        case NAnd(parts) => free := PartsOf(id, parts);
        case NOr(parts) => free := PartsOf(id, parts);
        case NImplies(x, y) =>
          free := FormulaOf(x);
          var more := FormulaOf(y);
          free := free + more;
        case NIff(x, y) =>
          free := FormulaOf(x);
          var more := FormulaOf(y);
          free := free + more;
        case NRelCompare(_, x, y) =>
          free := RelOf(x);
          var more := RelOf(y);
          free := free + more;
        case NIntCompare(_, x, y) =>
          free := IntOf(x);
          var more := IntOf(y);
          free := free + more;
        case NMultTest(_, e) => free := RelOf(e);
        case NQuant(_, v, bound, body) =>
          free := RelOf(bound);
          var inner := FormulaOf(body);
          free := free + (inner - {v});
      }
    }

    method PartsOf(id: nat, parts: seq<nat>) returns (free: set<VarId>)
      requires Valid() && id < |a.formulas| && (a.formulas[id] == NAnd(parts) || a.formulas[id] == NOr(parts))
      modifies this
      ensures Valid() && Grew() && free == FreeF(TreeF(a, rk, id))
      decreases rk.f[id], 0
    {
      hide SlotsF, SlotsR, SlotsI, FreeF, FreeParts;
      assert GoodF(a, rk, a.formulas[id], rk.f[id]);
      ghost var t := TreeF(a, rk, id);
      NothingFree(t.parts, []);
      free := {};
      var k := 0;
      while k < |parts|
        invariant k <= |parts| && Valid() && Grew()
        invariant free == FreeParts(t.parts[..k])
      {
        assert BelowF(a, rk, parts[k], rk.f[id]);
        var part := FormulaOf(parts[k]);
        FreeOfNext(t.parts, k);
        free := free + part;
        k := k + 1;
      }
      assert t.parts[..k] == t.parts;
      PartsFree(t);
    }

    method RelOf(id: nat) returns (free: set<VarId>)
      requires Valid() && id < |a.rels|
      modifies this
      ensures Valid() && Grew() && free == FreeR(TreeR(a, rk, id)) && rels[id] == Some(free)
      decreases rk.r[id], 2
    {
      if rels[id].Some? {
        assert rels[id] == Some(rels[id].value);
        return rels[id].value;
      }
      free := RelBody(id);
      rels := rels[id := Some(free)];
    }

    method RelBody(id: nat) returns (free: set<VarId>)
      requires Valid() && id < |a.rels|
      modifies this
      ensures Valid() && Grew() && free == FreeR(TreeR(a, rk, id))
      decreases rk.r[id], 1
    {
      hide SlotsF, SlotsR, SlotsI;
      assert GoodR(a, rk, a.rels[id], rk.r[id]);
      free := {};
      match a.rels[id] {
        case NRelation(_) =>
        case NRConst(_) =>
        case NVar(v) => free := {v};
        case NRBin(_, x, y) =>
          free := RelOf(x);
          var more := RelOf(y);
          free := free + more;
        case NRUn(_, e) => free := RelOf(e);
        case NRIte(c, x, y) =>
          free := FormulaOf(c);
          var more := RelOf(x);
          var rest := RelOf(y);
          free := free + more + rest;
        case NComprehension(decls, body) => free := ComprehensionOf(id, decls, body);
        case NIntToAtom(ie) => free := IntOf(ie);
      }
    }

    method ComprehensionOf(id: nat, decls: seq<NDecl>, body: nat) returns (free: set<VarId>)
      requires Valid() && id < |a.rels| && a.rels[id] == NComprehension(decls, body)
      modifies this
      ensures Valid() && Grew() && free == FreeR(TreeR(a, rk, id))
      decreases rk.r[id], 0
    {
      hide SlotsF, SlotsR, SlotsI, FreeR, FreeF, FreeBounds, DeclVars;
      assert GoodR(a, rk, a.rels[id], rk.r[id]);
      ghost var t := TreeR(a, rk, id);
      NothingFree([], t.decls);
      free := {};
      var k := 0;
      while k < |decls|
        invariant k <= |decls| && Valid() && Grew()
        invariant free == FreeBounds(t.decls[..k])
      {
        assert BelowR(a, rk, decls[k].bound, rk.r[id]);
        var bound := RelOf(decls[k].bound);
        FreeOfNextBound(t.decls, k);
        free := free + bound;
        k := k + 1;
      }
      var inner := FormulaOf(body);
      free := free + inner;
      assert t.decls[..k] == t.decls;
      ghost var all := free;
      k := 0;
      while k < |decls|
        invariant k <= |decls| && Valid() && Grew()
        invariant free == all - DeclVars(t.decls[..k])
      {
        FreeOfNextBound(t.decls, k);
        free := free - {decls[k].v};
        k := k + 1;
      }
      assert t.decls[..k] == t.decls;
      ComprehensionFree(t, all);
    }

    method IntOf(id: nat) returns (free: set<VarId>)
      requires Valid() && id < |a.ints|
      modifies this
      ensures Valid() && Grew() && free == FreeI(TreeI(a, rk, id)) && ints[id] == Some(free)
      decreases rk.i[id], 2
    {
      if ints[id].Some? {
        assert ints[id] == Some(ints[id].value);
        return ints[id].value;
      }
      free := IntBody(id);
      ints := ints[id := Some(free)];
    }

    method IntBody(id: nat) returns (free: set<VarId>)
      requires Valid() && id < |a.ints|
      modifies this
      ensures Valid() && Grew() && free == FreeI(TreeI(a, rk, id))
      decreases rk.i[id], 1
    {
      hide SlotsF, SlotsR, SlotsI;
      assert GoodI(a, rk, a.ints[id], rk.i[id]);
      free := {};
      match a.ints[id] {
        case NIConst(_) =>
        case NCard(r) => free := RelOf(r);
        case NAtomToInt(r) => free := RelOf(r);
        case NNeg(i) => free := IntOf(i);
        case NIBin(_, x, y) =>
          free := IntOf(x);
          var more := IntOf(y);
          free := free + more;
        case NSum(v, bound, body) =>
          free := RelOf(bound);
          var inner := IntOf(body);
          free := free + (inner - {v});
        case NIIte(c, x, y) =>
          free := FormulaOf(c);
          var more := IntOf(x);
          var rest := IntOf(y);
          free := free + more + rest;
      }
    }

    /** Fills every slot. */
    method Build()
      requires Valid()
      modifies this
      ensures Valid()
      ensures forall id | 0 <= id < |a.formulas| :: formulas[id] == Some(FreeF(TreeF(a, rk, id)))
      ensures forall id | 0 <= id < |a.rels| :: rels[id] == Some(FreeR(TreeR(a, rk, id)))
      ensures forall id | 0 <= id < |a.ints| :: ints[id] == Some(FreeI(TreeI(a, rk, id)))
    {
      hide FreeF, FreeR, FreeI, TreeF, TreeR, TreeI, GoodArena;
      var k := 0;
      while k < |a.formulas|
        invariant k <= |a.formulas| && Valid() && forall id | 0 <= id < k :: formulas[id].Some?
      {
        var _ := FormulaOf(k);
        k := k + 1;
      }
      k := 0;
      while k < |a.rels|
        invariant k <= |a.rels| && Valid() && forall id | 0 <= id < |a.formulas| :: formulas[id].Some?
        invariant forall id | 0 <= id < k :: rels[id].Some?
      {
        var _ := RelOf(k);
        k := k + 1;
      }
      k := 0;
      while k < |a.ints|
        invariant k <= |a.ints| && Valid() && forall id | 0 <= id < |a.formulas| :: formulas[id].Some?
        invariant forall id | 0 <= id < |a.rels| :: rels[id].Some?
        invariant forall id | 0 <= id < k :: ints[id].Some?
      {
        var _ := IntOf(k);
        k := k + 1;
      }
    }
  }

  lemma PartsFree(t: Formula)
    requires t.And? || t.Or?
    ensures FreeF(t) == FreeParts(t.parts)
  {
  }

  lemma ComprehensionFree(t: RelExpr, all: set<VarId>)
    requires t.Comprehension? && all == FreeBounds(t.decls) + FreeF(t.body)
    ensures FreeR(t) == all - DeclVars(t.decls)
  {
  }

  lemma NothingFree(parts: seq<Formula>, decls: seq<CompDecl>)
    ensures FreeParts(parts[..0]) == {} && FreeBounds(decls[..0]) == {} && DeclVars(decls[..0]) == {}
  {
  }
}
