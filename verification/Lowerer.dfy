/** The lowerer as it runs (crates/als-core/src/lower.rs): a binder stack pushed and popped, a polarity
    saved and restored, growing tables. Every method computes the specification function of its name. */
module LowererRun {
  import opened Wrappers
  import opened Algebra
  import opened Closure
  import opened Ir
  import opened Freshness
  import opened Surface
  import opened AbstractUpper
  import opened LoweringFacts
  import L = Lowering
  import Typing

  predicate UpperOk(u: Upper) {
    u.arity >= 1 && HasArity(u.tuples, u.arity)
  }

  ghost predicate UppersOk(k: Tables, st: LState) {
    && (forall r | r in k.base :: UpperOk(k.base[r]))
    && (forall j | 0 <= j < |st.skolems| :: UpperOk(st.skolems[j].1))
  }

  lemma BinOk(op: RelBinOp, a: Upper, b: Upper)
    requires UpperOk(a) && UpperOk(b)
    ensures UpperOk(Upper(a.arity + b.arity, Product(a.tuples, b.tuples)))
    ensures UnionUpper(a, b).Some? ==> UpperOk(UnionUpper(a, b).value)
    ensures IntersectUpper(a, b).Some? ==> UpperOk(IntersectUpper(a, b).value)
    ensures JoinUpper(a, b).Some? ==> UpperOk(JoinUpper(a, b).value)
  {
    Typing.BinValueArity(ProductOp, a.tuples, b.tuples, a.arity, b.arity);
    Typing.BinValueArity(JoinOp, a.tuples, b.tuples, a.arity, b.arity);
  }

  /** The declarations bound so far, with the number of names pushed. */
  datatype BoundDecls = BoundDecls(fo: seq<CompDecl>, disj: seq<Formula>, cons: seq<Formula>, pushed: nat)

  ghost function Prefixed(parts: seq<Formula>, rest: Option<(seq<Formula>, LState)>): Option<(seq<Formula>, LState)> {
    if rest.None? then None else Some((parts + rest.value.0, rest.value.1))
  }

  lemma PrefixedEmpty(rest: Option<(seq<Formula>, LState)>)
    ensures Prefixed([], rest) == rest
  {
    if rest.Some? { assert [] + rest.value.0 == rest.value.0; }
  }

  lemma PrefixedTwice(a: seq<Formula>, b: seq<Formula>, rest: Option<(seq<Formula>, LState)>)
    ensures Prefixed(a, Prefixed(b, rest)) == Prefixed(a + b, rest)
  {
    if rest.Some? { assert a + (b + rest.value.0) == (a + b) + rest.value.0; }
  }

  function SetBuilder(b: BoundDecls, body: Formula): RelExpr {
    L.MakeComprehension(L.Bound(b.fo, b.disj, b.cons, [], LState(0, 0, [], map[])), body)
  }

  ghost function Joined(a: BoundDecls, rest: Option<L.Bound>): Option<L.Bound> {
    if rest.None? then None
    else Some(L.Bound(a.fo + rest.value.fo, a.disj + rest.value.disj, a.cons + rest.value.cons, rest.value.bs, rest.value.st))
  }

  lemma JoinedEmpty(rest: Option<L.Bound>)
    ensures Joined(BoundDecls([], [], [], 0), rest) == rest
  {
    if rest.Some? {
      assert [] + rest.value.fo == rest.value.fo && [] + rest.value.disj == rest.value.disj && [] + rest.value.cons == rest.value.cons;
    }
  }

  lemma JoinedTwice(a: BoundDecls, b: BoundDecls, rest: Option<L.Bound>)
    ensures Joined(a, Joined(b, rest)) == Joined(BoundDecls(a.fo + b.fo, a.disj + b.disj, a.cons + b.cons, a.pushed + b.pushed), rest)
  {
    if rest.Some? {
      assert a.fo + (b.fo + rest.value.fo) == (a.fo + b.fo) + rest.value.fo;
      assert a.disj + (b.disj + rest.value.disj) == (a.disj + b.disj) + rest.value.disj;
      assert a.cons + (b.cons + rest.value.cons) == (a.cons + b.cons) + rest.value.cons;
    }
  }

  lemma MintSnoc(st: LState, j: nat, upper: Upper)
    ensures L.MintSkolems(L.MintSkolems(st, j, upper), 1, upper) == L.MintSkolems(st, j + 1, upper)
    ensures L.RelRange(st.nextRel, j) + [Relation(st.nextRel + j)] == L.RelRange(st.nextRel, j + 1)
  {
    var a := L.MintSkolems(L.MintSkolems(st, j, upper), 1, upper).skolems;
    assert a == L.MintSkolems(st, j + 1, upper).skolems;
  }

  lemma PushSnoc(bs: L.Binders, names: seq<string>, group: seq<RelExpr>, j: nat, x: RelExpr)
    requires j == |group| < |names|
    ensures L.PushExprs(bs, names[..j], group) + [(names[j], L.BExpr(x))] == L.PushExprs(bs, names[..j + 1], group + [x])
  {
  }

  lemma ReadyPushed(k: Tables, st: LState, bs: L.Binders, names: seq<string>, group: seq<RelExpr>)
    requires Ready(k, st, bs) && |names| == |group| && forall j | 0 <= j < |group| :: CleanRel(group[j], st)
    ensures Ready(k, st, L.PushExprs(bs, names, group))
  {
    var bs' := L.PushExprs(bs, names, group);
    forall j | 0 <= j < |bs'|
      ensures ValidBinding(k, bs'[j].1, j, st)
    {
      if j < |bs| { assert ValidBinding(k, bs[j].1, j, st); } else { assert bs'[j].1 == L.BExpr(group[j - |bs|]); }
    }
  }

  lemma {:induction false} SkolemConsSnoc(group: seq<RelExpr>, x: RelExpr, bound: RelExpr)
    ensures L.SkolemCons(group + [x], bound) == L.SkolemCons(group, bound) + [RelCompare(Subset, x, bound), MultTest(TOne, x)]
    decreases |group|
  {
    if group == [] {
      assert (group + [x])[1..] == [];
    } else {
      assert (group + [x])[1..] == group[1..] + [x];
      SkolemConsSnoc(group[1..], x, bound);
    }
  }

  function Row(group: seq<RelExpr>, i: nat): seq<Formula>
    requires i < |group|
  {
    seq(|group| - i - 1, j requires 0 <= j < |group| - i - 1 => MultTest(TNo, RBin(Intersect, group[i], group[i + 1 + j])))
  }

  lemma RowSplit(group: seq<RelExpr>, i: nat)
    requires i < |group|
    ensures L.PairDisjoint(group[i..]) == Row(group, i) + L.PairDisjoint(group[i + 1..])
  {
    var g := group[i..];
    assert g[1..] == group[i + 1..] && g[0] == group[i];
    assert Row(group, i) == seq(|g| - 1, j requires 0 <= j < |g| - 1 => MultTest(TNo, RBin(Intersect, g[0], g[j + 1])));
  }

  lemma AllocSnoc(st: LState, j: nat, bound: RelExpr)
    ensures L.AllocVars(L.AllocVars(st, j, bound), 1, bound) == L.AllocVars(st, j + 1, bound)
  {
    OneBound(L.BoundAll(st.varBound, st.nextVar, j, bound), st.nextVar + j, bound);
  }

  lemma OneBound(m: map<VarId, RelExpr>, v: VarId, bound: RelExpr)
    ensures L.BoundAll(m, v, 1, bound) == m[v := bound]
  {
    var none: nat := 0;
    assert L.BoundAll(m, v, none, bound) == m;
    var one := none + 1;
    assert L.BoundAll(m, v, one, bound) == L.BoundAll(m, v, none, bound)[v + none := bound];
  }

  lemma VarSnoc(bs: L.Binders, names: seq<string>, first: VarId, j: nat)
    requires j < |names|
    ensures L.VarRange(first, j) + [Var(first + j)] == L.VarRange(first, j + 1)
    ensures L.PushVars(bs, names[..j], first) + [(names[j], L.BVar(first + j))] == L.PushVars(bs, names[..j + 1], first)
  {
  }

  lemma ReadyVars(k: Tables, st: LState, bs: L.Binders, names: seq<string>, first: VarId)
    requires Ready(k, st, bs) && first + |names| <= st.nextVar
    ensures Ready(k, st, L.PushVars(bs, names, first))
  {
    var bs' := L.PushVars(bs, names, first);
    forall j | 0 <= j < |bs'|
      ensures ValidBinding(k, bs'[j].1, j, st)
    {
      if j < |bs| { assert ValidBinding(k, bs[j].1, j, st); } else { assert bs'[j].1 == L.BVar(first + j - |bs|); }
    }
  }

  lemma GroupPushed(bs: L.Binders, names: seq<string>, group: seq<RelExpr>)
    requires |names| == |group|
    ensures L.Group(L.PushExprs(bs, names, group), |names|) == group
  {
  }

  lemma ReadyPush(k: Tables, st: LState, bs: L.Binders, b: (string, L.Binding))
    requires Ready(k, st, bs) && b.1.BExpr? && CleanRel(b.1.value, st)
    ensures Ready(k, st, bs + [b])
  {
  }

  /** The specification of one step of a higher-order group: its relation, constraints and tables. */
  ghost function MintSpec(k: Tables, st: LState, bs: L.Binders, pol: L.Pol, d: SDecl): Option<(RelExpr, seq<Formula>, LState)>
    requires d.bound.Marked?
  {
    var r :- L.LowerRel(k, st, bs, pol, d.bound.e);
    var upper :- UpperOf(k, r.1, r.0, r.1.nextVar);
    if d.bound.mult == MExactly then None
    else
      var c :- L.LowerRel(k, L.MintSkolems(r.1, 1, upper), bs, pol, d.bound.e);
      Some((Relation(r.1.nextRel), L.MarkedCons(d.bound.mult, Relation(r.1.nextRel), c.0), c.1))
  }

  lemma MarkedUnfold(k: Tables, st: LState, bs: L.Binders, pol: L.Pol, d: SDecl, names: seq<string>)
    requires d.bound.Marked? && names != []
    ensures var m := MintSpec(k, st, bs, pol, d);
      L.MintMarked(k, st, bs, pol, d, names)
      == if m.None? then None
         else Joined(BoundDecls([], [], m.value.1, 1), L.MintMarked(k, m.value.2, bs + [(names[0], L.BExpr(m.value.0))], pol, d, names[1..]))
  {
    hide L.LowerFormula, L.LowerRel;
    var m := MintSpec(k, st, bs, pol, d);
    if m.Some? {
      MintedShape(k, m.value.2, bs + [(names[0], L.BExpr(m.value.0))], pol, d, names[1..]);
      var none: (seq<CompDecl>, seq<Formula>) := ([], []);
      assert none.0 + [] == [] && none.1 + [] == [];
    }
  }

  /** One turn of the loop over the declarations. */
  lemma DeclsStep(k: Tables, st: LState, bs: L.Binders, pol: L.Pol, decls: seq<SDecl>, allowed: bool, i: nat, acc: BoundDecls)
    requires i < |decls|
    ensures var a := L.BindDecl(k, st, bs, pol, decls[i], allowed);
      var spec := Joined(acc, L.BindDecls(k, st, bs, pol, decls[i..], allowed));
      && (a.None? ==> spec.None?)
      && (a.Some? ==> forall n: nat ::
            spec == Joined(BoundDecls(acc.fo + a.value.fo, acc.disj + a.value.disj, acc.cons + a.value.cons, n),
                           L.BindDecls(k, a.value.st, a.value.bs, pol, decls[i + 1..], allowed)))
  {
    hide L.LowerFormula, L.LowerRel;
    assert decls[i..][0] == decls[i] && decls[i..][1..] == decls[i + 1..];
    var a := L.BindDecl(k, st, bs, pol, decls[i], allowed);
    if a.Some? {
      JoinedTwice(acc, BoundDecls(a.value.fo, a.value.disj, a.value.cons, 0),
                  L.BindDecls(k, a.value.st, a.value.bs, pol, decls[i + 1..], allowed));
    }
  }

  /** One turn of the loop over the names of a higher-order group. */
  lemma NamesStep(k: Tables, st: LState, bs: L.Binders, pol: L.Pol, d: SDecl, j: nat, cons: seq<Formula>)
    requires d.bound.Marked? && j < |d.names|
    ensures var m := MintSpec(k, st, bs, pol, d);
      Joined(BoundDecls([], [], cons, j), L.MintMarked(k, st, bs, pol, d, d.names[j..]))
      == if m.None? then None
         else Joined(BoundDecls([], [], cons + m.value.1, j + 1),
                     L.MintMarked(k, m.value.2, bs + [(d.names[j], L.BExpr(m.value.0))], pol, d, d.names[j + 1..]))
  {
    hide L.LowerFormula, L.LowerRel;
    assert d.names[j..][0] == d.names[j] && d.names[j..][1..] == d.names[j + 1..];
    MarkedUnfold(k, st, bs, pol, d, d.names[j..]);
    var m := MintSpec(k, st, bs, pol, d);
    if m.Some? {
      JoinedTwice(BoundDecls([], [], cons, j), BoundDecls([], [], m.value.1, 1),
                  L.MintMarked(k, m.value.2, bs + [(d.names[j], L.BExpr(m.value.0))], pol, d, d.names[j + 1..]));
    }
  }

  lemma {:induction false} MintedShape(k: Tables, st: LState, bs: L.Binders, pol: L.Pol, d: SDecl, names: seq<string>)
    requires d.bound.Marked?
    ensures var m := L.MintMarked(k, st, bs, pol, d, names); m.Some? ==> m.value.fo == [] && m.value.disj == []
  {
  }

  class Lowerer {
    const tables: Tables
    var nextVar: nat
    var nextRel: nat
    var skolems: seq<(RelId, Upper)>
    var varBound: map<VarId, RelExpr>
    var binders: L.Binders
    var pol: L.Pol

    constructor (k: Tables, positive: bool)
      requires (forall r | r in k.base :: r < k.nextRel && UpperOk(k.base[r]))
      ensures tables == k && Valid() && State() == LState(0, k.nextRel, [], map[])
      ensures binders == [] && pol == L.Pol(positive, false)
    {
      tables := k;
      nextVar, nextRel := 0, k.nextRel;
      skolems, varBound, binders := [], map[], [];
      pol := L.Pol(positive, false);
    }

    function State(): LState
      reads this
    {
      LState(nextVar, nextRel, skolems, varBound)
    }

    ghost predicate Valid()
      reads this
    {
      Ready(tables, State(), binders) && UppersOk(tables, State())
    }

    // ---------------------------------------------------------------- abstract upper bounds

    /** The recursion ends because a variable's bound mentions only earlier variables: `n` falls. */
    method AbstractUpper(r: RelExpr, ghost n: nat) returns (u: Option<Upper>)
      requires Valid() && BelowRel(r, n, nextRel)
      ensures u == UpperOf(tables, State(), r, n)
      ensures u.Some? ==> UpperOk(u.value)
      decreases n, r
    {
      hide L.LowerFormula;
      match r
      case Relation(rel) =>
        if rel in tables.base {
          u := Some(tables.base[rel]);
        } else {
          u := FindSkolem(skolems, rel);
          if u.Some? { FoundSkolem(skolems, rel); }
        }
      case RConst(c) =>
        u := match c
          case CNone => Some(Upper(1, {}))
          case CUniv => Some(Upper(1, UnivSet(tables.univ)))
          case CIden => Some(Upper(2, IdenSet(tables.univ)));
      case RBin(op, l, rr) =>
        var a := AbstractUpper(l, n);
        if a.None? { return None; }
        if op == Diff {
          u := a;
        } else {
          var b := AbstractUpper(rr, n);
          if b.None? { return if op == Intersect then a else None; }
          BinOk(op, a.value, b.value);
          u := Combine(op, a.value, b.value);
        }
      case RUn(op, e) =>
        var a := AbstractUpper(e, n);
        if a.None? || a.value.arity != 2 { return None; }
        match op {
          case TransposeOp =>
            var t := TransposeLoop(a.value.tuples);
            u := Some(Upper(2, t));
          case ClosureOp =>
            var c := ClosureByExtension(a.value.tuples);
            ClosureArity(a.value.tuples);
            u := Some(Upper(2, c));
          case ReflexiveClosure =>
            var c := ClosureByExtension(a.value.tuples);
            ClosureArity(a.value.tuples);
            var t := UnionLoop(c, IdenSet(tables.univ));
            u := Some(Upper(2, t));
        }
      case Var(v) =>
        if v in varBound {
          u := AbstractUpper(varBound[v], v);
        } else {
          u := None;
        }
      case _ => u := None;
    }

    static method Combine(op: RelBinOp, a: Upper, b: Upper) returns (u: Option<Upper>)
      requires op != Diff
      ensures u == match op {
        case Intersect => IntersectUpper(a, b)
        case ProductOp => Some(Upper(a.arity + b.arity, Product(a.tuples, b.tuples)))
        case JoinOp => JoinUpper(a, b)
        case _ => UnionUpper(a, b) }
    {
      match op
      case Intersect =>
        if a.arity != b.arity { return None; }
        var t := IntersectLoop(a.tuples, b.tuples);
        u := Some(Upper(a.arity, t));
      case ProductOp =>
        var t := ProductLoop(a.tuples, b.tuples);
        u := Some(Upper(a.arity + b.arity, t));
      case JoinOp =>
        if (a.arity < 2 && b.arity < 2) || a.arity + b.arity < 3 { return None; }
        var t := JoinLoop(a.tuples, b.tuples);
        u := Some(Upper(a.arity + b.arity - 2, t));
      case _ =>
        if a.arity != b.arity { return None; }
        var t := UnionLoop(a.tuples, b.tuples);
        u := Some(Upper(a.arity, t));
    }

    // ---------------------------------------------------------------- agreement with the specification

    ghost predicate GaveFormula(r: Option<Formula>, spec: Option<(Formula, LState)>)
      reads this
    {
      match spec
      case None => r.None?
      case Some(p) => r == Some(p.0) && State() == p.1
    }

    ghost predicate GaveRel(r: Option<RelExpr>, spec: Option<(RelExpr, LState)>)
      reads this
    {
      match spec
      case None => r.None?
      case Some(p) => r == Some(p.0) && State() == p.1
    }

    /** The stack and the polarity are back where they were, and the tables stay consistent. */
    twostate predicate Balanced()
      reads this
    {
      binders == old(binders) && pol == old(pol) && Valid()
    }

    // ---------------------------------------------------------------- formulas

    method LowerFormula(f: SFormula) returns (r: Option<Formula>)
      requires Valid() && LeavesFormula(tables, f)
      modifies this
      ensures GaveFormula(r, L.LowerFormula(tables, old(State()), old(binders), old(pol), f))
      ensures r.Some? ==> Balanced()
      decreases f, 1
    {
      hide L.LowerRel, L.BindDecl;
      match f
      case FBlock(_) => r := LowerBlock(f);
      case FCompare(_, _, _, _) => r := LowerCompare(f);
      case FNot(g) =>
        var saved := pol;
        pol := L.Pol(!saved.positive, saved.blocked);
        var a := LowerFormula(g);
        pol := saved;
        r := if a.None? then None else Some(Not(a.value));
      case FAnd(_, _) => r := LowerBinary(f);
      case FOr(_, _) => r := LowerBinary(f);
      case FImplies(_, _) => r := LowerBinary(f);
      case FIff(_, _) => r := LowerBinary(f);
      case FIte(_, _, _) => r := LowerIte(f);
      case FTest(test, e) =>
        var a := LowerRel(e);
        r := if a.None? then None else Some(MultTest(test, a.value));
      case FQuant(_, _, _) => r := LowerQuant(f);
      case FLet(_, _) => r := LowerLet(f);
      case FName(_, _) => r := LookupBinderFormula(f);
    }

    method LowerBlock(f: SFormula) returns (r: Option<Formula>)
      requires f.FBlock? && Valid() && LeavesFormula(tables, f)
      modifies this
      ensures GaveFormula(r, L.LowerFormula(tables, old(State()), old(binders), old(pol), f))
      ensures r.Some? ==> Balanced()
      decreases f, 0
    {
      var saved := pol;
      if !saved.positive && |f.parts| >= 2 { pol := L.Blocked(pol); }
      var parts := [];
      var i := 0;
      assert f.parts[0..] == f.parts;
      PrefixedEmpty(L.LowerParts(tables, State(), binders, pol, f.parts));
      while i < |f.parts|
        invariant i <= |f.parts| && Valid() && binders == old(binders)
        invariant pol == L.BlockedIf(saved, !saved.positive && |f.parts| >= 2)
        invariant L.LowerParts(tables, old(State()), old(binders), pol, f.parts)
                  == Prefixed(parts, L.LowerParts(tables, State(), binders, pol, f.parts[i..]))
      {
        ghost var before := State();
        var p := LowerFormula(f.parts[i]);
        if p.None? { return None; }
        ghost var rest := L.LowerParts(tables, State(), binders, pol, f.parts[i..][1..]);
        assert L.LowerParts(tables, before, binders, pol, f.parts[i..]) == Prefixed([p.value], rest);
        PrefixedTwice(parts, [p.value], rest);
        assert f.parts[i..][1..] == f.parts[i + 1..];
        parts := parts + [p.value];
        i := i + 1;
      }
      assert parts + [] == parts;
      pol := saved;
      r := Some(L.Conjoin(parts));
    }

    method LowerCompare(f: SFormula) returns (r: Option<Formula>)
      requires f.FCompare? && Valid() && LeavesFormula(tables, f)
      modifies this
      ensures GaveFormula(r, L.LowerFormula(tables, old(State()), old(binders), old(pol), f))
      ensures r.Some? ==> Balanced()
      decreases f, 0
    {
      hide L.BindDecl, ValidState;
      var a := LowerRel(f.l);
      if a.None? { return None; }
      var b := LowerRel(f.r);
      if b.None? { return None; }
      var g := RelCompare(f.op, a.value, b.value);
      r := Some(if f.negated then Not(g) else g);
    }

    /** `and`, `or`, `implies` and `iff`: the polarity is set for each side and then restored. */
    method LowerBinary(f: SFormula) returns (r: Option<Formula>)
      requires Binary(f) && Valid() && LeavesFormula(tables, f)
      modifies this
      ensures GaveFormula(r, L.LowerFormula(tables, old(State()), old(binders), old(pol), f))
      ensures r.Some? ==> Balanced()
      decreases f, 0
    {
      hide L.LowerFormula, Connected, LeftPol, RightPol, ValidState, ValidBinders, UppersOk, L.LowerRel;
      BinaryUnfolds(tables, State(), binders, pol, f);
      var saved := pol;
      pol := LeftPol(f, saved);
      var a := LowerFormula(f.left);
      if a.None? { return None; }
      pol := RightPol(f, saved);
      var b := LowerFormula(f.right);
      if b.None? { return None; }
      pol := saved;
      r := Some(Connected(f, a.value, b.value));
    }

    method LowerIte(f: SFormula) returns (r: Option<Formula>)
      requires f.FIte? && Valid() && LeavesFormula(tables, f)
      modifies this
      ensures GaveFormula(r, L.LowerFormula(tables, old(State()), old(binders), old(pol), f))
      ensures r.Some? ==> Balanced()
      decreases f, 0
    {
      hide L.BindDecl, ValidState, UppersOk;
      var saved := pol;
      pol := L.Blocked(pol);
      var c := LowerFormula(f.cond);
      if c.None? { return None; }
      var a := LowerFormula(f.t);
      if a.None? { return None; }
      var b := LowerFormula(f.els);
      if b.None? { return None; }
      pol := saved;
      r := Some(Or([And([c.value, a.value]), And([Not(c.value), b.value])]));
    }

    /** The right-hand side is lowered at the use, under the stack of the binding site. */
    method LookupBinderFormula(f: SFormula) returns (r: Option<Formula>)
      requires f.FName? && Valid() && LeavesFormula(tables, f)
      modifies this
      ensures GaveFormula(r, L.LowerFormula(tables, old(State()), old(binders), old(pol), f))
      ensures r.Some? ==> Balanced()
      decreases f, 0
    {
      hide L.LowerRel, L.BindDecl;
      var n := Find(binders, f.name);
      if n.None? { return None; }
      match binders[n.value].1 {
        case BFormula(target, depth) =>
          assert ValidBinding(tables, binders[n.value].1, n.value, State());
          if target != f.target { return None; }
          ghost var st0 := State();
          var tail := binders[depth..];
          binders := binders[..depth];
          r := LowerFormula(f.target);
          if r.None? { return; }
          binders := binders + tail;
          assert binders == old(binders);
          FormulaFacts(tables, st0, old(binders)[..depth], pol, f.target);
          ReadyGrows(tables, st0, old(binders), State());
        case _ => return None;
      }
    }

    method LowerLet(f: SFormula) returns (r: Option<Formula>)
      requires f.FLet? && Valid() && LeavesFormula(tables, f)
      modifies this
      ensures GaveFormula(r, L.LowerFormula(tables, old(State()), old(binders), old(pol), f))
      ensures r.Some? ==> Balanced()
      decreases f, 0
    {
      hide ValidState, UppersOk;
      assert LeavesLets(tables, f.lets);
      ghost var st0 := State();
      var pushed := PushLetBindings(f.lets);
      if pushed.None? { return None; }
      ghost var st1, bs1 := State(), binders;
      LetsFacts(tables, st0, old(binders), pol, f.lets);
      r := LowerFormula(f.body);
      if r.None? { return; }
      binders := binders[..|binders| - pushed.value];
      FormulaFacts(tables, st1, bs1, pol, f.body);
      ReadyGrows(tables, st0, old(binders), State());
    }

    method PushLetBindings(lets: seq<SLet>) returns (pushed: Option<nat>)
      requires Valid() && LeavesLets(tables, lets)
      modifies this
      ensures var spec := L.PushLets(tables, old(State()), old(binders), old(pol), lets);
        && (spec.None? <==> pushed.None?)
        && (spec.Some? ==> binders == spec.value.0 && State() == spec.value.1
                           && pol == old(pol) && Valid() && |binders| == |old(binders)| + pushed.value && old(binders) <= binders)
      decreases lets, 1
    {
      hide L.LowerRel, LeavesFormula;
      var n := 0;
      while n < |lets|
        invariant n <= |lets| && Valid() && pol == old(pol) && old(binders) <= binders && |binders| == |old(binders)| + n
        invariant L.PushLets(tables, old(State()), old(binders), old(pol), lets)
                  == L.PushLets(tables, State(), binders, pol, lets[n..])
      {
        assert lets[n..][0] == lets[n] && lets[n..][1..] == lets[n + 1..];
        match lets[n] {
          case LetRel(x, e) =>
            var v := LowerRel(e);
            if v.None? { return None; }
            binders := binders + [(x, L.BExpr(v.value))];
          case LetFormula(x, g) =>
            binders := binders + [(x, L.BFormula(g, |binders|))];
        }
        n := n + 1;
      }
      pushed := Some(n);
    }

    // ---------------------------------------------------------------- quantifiers and comprehensions

    method LowerQuant(f: SFormula) returns (r: Option<Formula>)
      requires f.FQuant? && Valid() && LeavesFormula(tables, f)
      modifies this
      ensures GaveFormula(r, L.LowerFormula(tables, old(State()), old(binders), old(pol), f))
      ensures r.Some? ==> Balanced()
      decreases f, 0, 1
    {
      hide L.LowerFormula, BodyPol, L.EffectiveExistential, L.Guarded, L.WrapQuants, L.LowerRel;
      if f.quant == QuOne || f.quant == QuLone {
        r := LowerCounted(f);
        return;
      }
      QuantUnfolds(tables, State(), binders, pol, f);
      var bodyPol := BodyPol(f.quant, pol);
      ghost var st0 := State();
      ghost var o := L.BindDecls(tables, st0, binders, pol, f.decls, L.EffectiveExistential(f.quant, pol) && !pol.blocked);
      var b := BindDeclsVars(f.decls, L.EffectiveExistential(f.quant, pol) && !pol.blocked);
      if b.None? { return None; }
      var body := LowerBody(f.body, bodyPol, b.value.pushed);
      if body.None? { return None; }
      ReadyGrows(tables, st0, old(binders), State());
      var acc := Assemble(f.quant, b.value, o.value, body.value);
      r := Some(acc);
    }

    /** The guards go inside the nest, and `no` negates its body. */
    static method Assemble(q: SQuant, b: BoundDecls, ghost o: L.Bound, body: Formula) returns (acc: Formula)
      requires o.fo == b.fo && o.disj == b.disj && o.cons == b.cons
      ensures acc == L.WrapQuants(if q == QuSome then QSome else QAll, o.fo, L.Guarded(q, o, if q == QuNo then Not(body) else body))
    {
      var inner := if q == QuNo then Not(body) else body;
      inner := L.Guarded(q, L.Bound(b.fo, b.disj, b.cons, [], LState(0, 0, [], map[])), inner);
      acc := WrapInQuants(if q == QuSome then QSome else QAll, b.fo, inner);
    }

    /** Lowers a body at its own polarity, then pops the binders its declarations pushed. */
    method LowerBody(body: SFormula, bodyPol: L.Pol, pushed: nat) returns (r: Option<Formula>)
      requires Valid() && LeavesFormula(tables, body) && pushed <= |binders|
      modifies this
      ensures GaveFormula(r, L.LowerFormula(tables, old(State()), old(binders), bodyPol, body))
      ensures r.Some? ==> pol == old(pol) && binders == old(binders)[..|old(binders)| - pushed]
      ensures r.Some? ==> ValidState(tables, State()) && UppersOk(tables, State()) && Grows(old(State()), State())
      decreases body, 2
    {
      hide L.LowerRel, ValidState;
      var saved := pol;
      pol := bodyPol;
      if L.LowerFormula(tables, State(), binders, pol, body).Some? { FormulaFacts(tables, State(), binders, pol, body); }
      r := LowerFormula(body);
      pol := saved;
      if r.Some? { binders := binders[..|binders| - pushed]; }
    }

    static method WrapInQuants(kind: QuantKind, fo: seq<CompDecl>, inner: Formula) returns (acc: Formula)
      ensures acc == L.WrapQuants(kind, fo, inner)
    {
      acc := inner;
      var i: nat := |fo|;
      assert fo[i..] == [];
      while i > 0
        invariant i <= |fo| && acc == L.WrapQuants(kind, fo[i..], inner)
      {
        i := i - 1;
        acc := Quant(kind, fo[i].v, fo[i].bound, acc);
        assert fo[i..][0] == fo[i] && fo[i..][1..] == fo[i + 1..];
      }
      assert fo[0..] == fo;
    }

    method LowerCounted(f: SFormula) returns (r: Option<Formula>)
      requires f.FQuant? && (f.quant == QuOne || f.quant == QuLone) && Valid() && LeavesFormula(tables, f)
      modifies this
      ensures GaveFormula(r, L.LowerFormula(tables, old(State()), old(binders), old(pol), f))
      ensures r.Some? ==> Balanced()
      decreases f, 0, 0
    {
      hide L.LowerFormula, L.LowerRel, L.BindDecl;
      CountUnfolds(tables, State(), binders, pol, f);
      var saved := pol;
      pol := L.Blocked(pol);
      ghost var st0 := State();
      var b := BindDeclsVars(f.decls, false);
      if b.None? { return None; }
      var body := LowerBody(f.body, pol, b.value.pushed);
      if body.None? { return None; }
      pol := saved;
      ReadyGrows(tables, st0, old(binders), State());
      r := Some(MultTest(if f.quant == QuOne then TOne else TLone, SetBuilder(b.value, body.value)));
    }

    // ---------------------------------------------------------------- relations

    method LowerRel(e: SExpr) returns (r: Option<RelExpr>)
      requires Valid() && LeavesExpr(tables, e)
      modifies this
      ensures GaveRel(r, L.LowerRel(tables, old(State()), old(binders), old(pol), e))
      ensures r.Some? ==> Balanced()
      ensures r.Some? ==> CleanRel(r.value, State()) && Grows(old(State()), State())
      decreases e, 1
    {
      hide L.LowerFormula, LeavesFormula, L.BindDecl, ValidState, UppersOk;
      if L.LowerRel(tables, State(), binders, pol, e).Some? { ExprFacts(tables, State(), binders, pol, e); }
      match e
      case SLeaf(denote) => r := Some(denote);
      case SName(x) =>
        var n := Find(binders, x);
        if n.None? { return None; }
        r := match binders[n.value].1
          case BVar(v) => Some(Var(v))
          case BExpr(value) => Some(value)
          case BFormula(_, _) => None;
      case SBin(op, x, y) =>
        var a := LowerRel(x);
        if a.None? { return None; }
        var b := LowerRel(y);
        r := if b.None? then None else Some(RBin(op, a.value, b.value));
      case SUn(op, x) =>
        var a := LowerRel(x);
        r := if a.None? then None else Some(RUn(op, a.value));
      case SIte(_, _, _) => r := LowerChoice(e);
      case SCompr(_, _) => r := LowerComprehension(e);
    }

    method LowerChoice(e: SExpr) returns (r: Option<RelExpr>)
      requires e.SIte? && Valid() && LeavesExpr(tables, e)
      modifies this
      ensures GaveRel(r, L.LowerRel(tables, old(State()), old(binders), old(pol), e))
      ensures r.Some? ==> Balanced()
      decreases e, 0
    {
      hide L.LowerFormula, LeavesFormula, L.BindDecl, UppersOk;
      var saved := pol;
      pol := L.Blocked(pol);
      var c := LowerFormula(e.cond);
      if c.None? { return None; }
      pol := saved;
      var a := LowerRel(e.t);
      if a.None? { return None; }
      var b := LowerRel(e.els);
      r := if b.None? then None else Some(RIte(c.value, a.value, b.value));
    }

    method LowerComprehension(e: SExpr) returns (r: Option<RelExpr>)
      requires e.SCompr? && Valid() && LeavesExpr(tables, e)
      modifies this
      ensures GaveRel(r, L.LowerRel(tables, old(State()), old(binders), old(pol), e))
      ensures r.Some? ==> Balanced()
      decreases e, 0
    {
      hide L.LowerFormula;
      var saved := pol;
      pol := L.Blocked(pol);
      ghost var st0 := State();
      var b := BindDeclsVars(e.decls, false);
      if b.None? { return None; }
      var body := LowerBody(e.body, pol, b.value.pushed);
      if body.None? { return None; }
      pol := saved;
      ReadyGrows(tables, st0, old(binders), State());
      r := Some(SetBuilder(b.value, body.value));
    }

    // ---------------------------------------------------------------- declarations

    /** What one or more declarations added to the run. */
    twostate predicate GaveBound(new b: Option<BoundDecls>, new spec: Option<L.Bound>)
      reads this
    {
      && (spec.None? <==> b.None?)
      && (spec.Some? ==>
            && b.value.fo == spec.value.fo && b.value.disj == spec.value.disj && b.value.cons == spec.value.cons
            && binders == spec.value.bs && State() == spec.value.st
            && pol == old(pol) && Valid() && Grows(old(State()), State())
            && old(binders) <= binders && |binders| == |old(binders)| + b.value.pushed)
    }

    method BindDeclsVars(decls: seq<SDecl>, allowed: bool) returns (r: Option<BoundDecls>)
      requires Valid() && LeavesDecls(tables, decls)
      modifies this
      ensures GaveBound(r, L.BindDecls(tables, old(State()), old(binders), old(pol), decls, allowed))
      decreases decls, 1
    {
      var acc := BoundDecls([], [], [], 0);
      var i := 0;
      assert decls[0..] == decls;
      ghost var spec := L.BindDecls(tables, State(), binders, pol, decls, allowed);
      JoinedEmpty(spec);
      while i < |decls|
        invariant i <= |decls| && Valid() && pol == old(pol) && Grows(old(State()), State())
        invariant old(binders) <= binders && |binders| == |old(binders)| + acc.pushed
        invariant spec == Joined(acc, L.BindDecls(tables, State(), binders, pol, decls[i..], allowed))
      {
        DeclsStep(tables, State(), binders, pol, decls, allowed, i, acc);
        var d := BindOne(decls[i], allowed);
        if d.None? { return None; }
        acc := BoundDecls(acc.fo + d.value.fo, acc.disj + d.value.disj, acc.cons + d.value.cons, acc.pushed + d.value.pushed);
        i := i + 1;
      }
      assert acc.fo + [] == acc.fo && acc.disj + [] == acc.disj && acc.cons + [] == acc.cons;
      r := Some(acc);
    }

    method BindOne(d: SDecl, allowed: bool) returns (r: Option<BoundDecls>)
      requires Valid() && LeavesExpr(tables, d.bound.e)
      modifies this
      ensures GaveBound(r, L.BindDecl(tables, old(State()), old(binders), old(pol), d, allowed))
      decreases d, 2
    {
      if d.bound.Marked? {
        if !allowed { return None; }
        r := SkolemizeGroup(d);
        return;
      }
      var bound := LowerRel(d.bound.e);
      if bound.None? { return None; }
      var upper := None;
      if allowed { upper := AbstractUpper(bound.value, nextVar); }
      if upper.Some? {
        var b := FoSkolemizeGroup(d, bound.value, upper.value);
        r := Some(b);
      } else {
        var b := BindVarGroup(d, bound.value);
        r := Some(b);
      }
    }

    /** One fresh skolem constant for each name: membership in the bound, and `one`. */
    method FoSkolemizeGroup(d: SDecl, bound: RelExpr, upper: Upper) returns (b: BoundDecls)
      requires Valid() && UpperOk(upper) && CleanRel(bound, State())
      modifies this
      ensures var n := |d.names|;
        var group := L.RelRange(old(nextRel), n);
        && b == BoundDecls([], [], L.SkolemCons(group, bound) + L.GroupDisjoint(d.disj, group), n)
        && State() == L.MintSkolems(old(State()), n, upper)
        && binders == L.PushExprs(old(binders), d.names, group)
      ensures pol == old(pol) && Valid() && Grows(old(State()), State())
    {
      var cons, group := FoSkolemizeNames(d.names, bound, upper);
      MintValid(tables, old(State()), |d.names|, upper);
      ReadyGrows(tables, old(State()), old(binders), State());
      ReadyPushed(tables, State(), old(binders), d.names, group);
      var disj := PushPairwiseDisjoint(group);
      if d.disj && |group| >= 2 { cons := cons + disj; } else { assert cons + [] == cons; }
      b := BoundDecls([], [], cons, |d.names|);
    }

    method FoSkolemizeNames(names: seq<string>, bound: RelExpr, upper: Upper) returns (cons: seq<Formula>, group: seq<RelExpr>)
      modifies this
      ensures group == L.RelRange(old(nextRel), |names|) && cons == L.SkolemCons(group, bound)
      ensures State() == L.MintSkolems(old(State()), |names|, upper) && pol == old(pol)
      ensures binders == L.PushExprs(old(binders), names, group)
    {
      cons, group := [], [];
      var j := 0;
      while j < |names|
        invariant j <= |names| && pol == old(pol)
        invariant State() == L.MintSkolems(old(State()), j, upper)
        invariant group == L.RelRange(old(nextRel), j) && cons == L.SkolemCons(group, bound)
        invariant binders == L.PushExprs(old(binders), names[..j], group)
      {
        MintSnoc(old(State()), j, upper);
        PushSnoc(old(binders), names, group, j, Relation(nextRel));
        var x := AllocSkolem(upper);
        cons := cons + [RelCompare(Subset, x, bound), MultTest(TOne, x)];
        SkolemConsSnoc(group, x, bound);
        binders := binders + [(names[j], L.BExpr(x))];
        group := group + [x];
        j := j + 1;
      }
      assert names[..j] == names;
    }

    /** A fresh static relation bounded by nothing below and `upper` above. */
    method AllocSkolem(upper: Upper) returns (x: RelExpr)
      modifies `nextRel, `skolems
      ensures x == Relation(old(nextRel)) && State() == L.MintSkolems(old(State()), 1, upper)
    {
      x := Relation(nextRel);
      skolems := skolems + [(nextRel, upper)];
      nextRel := nextRel + 1;
      assert State() == L.MintSkolems(old(State()), 1, upper);
    }

    /** `no` of every pairwise intersection, in the order of the nested loops. */
    static method PushPairwiseDisjoint(group: seq<RelExpr>) returns (out: seq<Formula>)
      ensures out == L.PairDisjoint(group)
    {
      out := [];
      var i := 0;
      assert group[0..] == group && [] + L.PairDisjoint(group) == L.PairDisjoint(group);
      while i < |group|
        invariant i <= |group| && L.PairDisjoint(group) == out + L.PairDisjoint(group[i..])
      {
        var row := PairRow(group, i);
        RowSplit(group, i);
        assert out + (row + L.PairDisjoint(group[i + 1..])) == (out + row) + L.PairDisjoint(group[i + 1..]);
        out := out + row;
        i := i + 1;
      }
      assert out + [] == out;
    }

    static method PairRow(group: seq<RelExpr>, i: nat) returns (out: seq<Formula>)
      requires i < |group|
      ensures out == Row(group, i)
    {
      out := [];
      var j := i + 1;
      while j < |group|
        invariant i + 1 <= j <= |group| && out == Row(group, i)[..j - i - 1]
      {
        out := out + [MultTest(TNo, RBin(Intersect, group[i], group[j]))];
        j := j + 1;
      }
    }

    /** One fresh quantifier variable for each name, all over the one bound. */
    method BindVarGroup(d: SDecl, bound: RelExpr) returns (b: BoundDecls)
      requires Valid() && CleanRel(bound, State())
      modifies this
      ensures var n := |d.names|;
        && b == BoundDecls(seq(n, j requires 0 <= j < n => CompDecl(old(nextVar) + j, bound)),
                           L.GroupDisjoint(d.disj, L.VarRange(old(nextVar), n)), [], n)
        && State() == L.AllocVars(old(State()), n, bound)
        && binders == L.PushVars(old(binders), d.names, old(nextVar))
      ensures pol == old(pol) && Valid() && Grows(old(State()), State())
    {
      var fo, group := BindVarNames(d.names, bound);
      AllocValid(tables, old(State()), |d.names|, bound);
      ReadyGrows(tables, old(State()), old(binders), State());
      ReadyVars(tables, State(), old(binders), d.names, old(nextVar));
      var disj := PushPairwiseDisjoint(group);
      b := BoundDecls(fo, if d.disj && |group| >= 2 then disj else [], [], |d.names|);
    }

    method BindVarNames(names: seq<string>, bound: RelExpr) returns (fo: seq<CompDecl>, group: seq<RelExpr>)
      modifies this
      ensures group == L.VarRange(old(nextVar), |names|)
      ensures fo == seq(|names|, m requires 0 <= m < |names| => CompDecl(old(nextVar) + m, bound))
      ensures State() == L.AllocVars(old(State()), |names|, bound) && pol == old(pol)
      ensures binders == L.PushVars(old(binders), names, old(nextVar))
    {
      fo, group := [], [];
      var j := 0;
      while j < |names|
        invariant j <= |names| && pol == old(pol)
        invariant State() == L.AllocVars(old(State()), j, bound)
        invariant group == L.VarRange(old(nextVar), j)
        invariant fo == seq(j, m requires 0 <= m < j => CompDecl(old(nextVar) + m, bound))
        invariant binders == L.PushVars(old(binders), names[..j], old(nextVar))
      {
        AllocSnoc(old(State()), j, bound);
        VarSnoc(old(binders), names, old(nextVar), j);
        var v := AllocVar(bound);
        fo := fo + [CompDecl(v, bound)];
        binders := binders + [(names[j], L.BVar(v))];
        group := group + [Var(v)];
        j := j + 1;
      }
      assert names[..j] == names;
    }

    method AllocVar(bound: RelExpr) returns (v: VarId)
      modifies `nextVar, `varBound
      ensures v == old(nextVar) && State() == L.AllocVars(old(State()), 1, bound)
    {
      v := nextVar;
      varBound := varBound[v := bound];
      nextVar := v + 1;
    }

    /** Each name of a higher-order group gets a relation; its bound is lowered again for every name. */
    method SkolemizeGroup(d: SDecl) returns (r: Option<BoundDecls>)
      requires d.bound.Marked? && Valid() && LeavesExpr(tables, d.bound.e)
      modifies this
      ensures GaveBound(r, L.BindDecl(tables, old(State()), old(binders), old(pol), d, true))
      decreases d, 1, 1
    {
      hide L.LowerRel, ValidState;
      var cons, group := SkolemizeNames(d);
      if cons.None? { return None; }
      GroupPushed(old(binders), d.names, group);
      var disj := PushPairwiseDisjoint(group);
      r := Some(BoundDecls([], [], cons.value + if d.disj && |group| >= 2 then disj else [], |d.names|));
    }

    method SkolemizeNames(d: SDecl) returns (r: Option<seq<Formula>>, group: seq<RelExpr>)
      requires d.bound.Marked? && Valid() && LeavesExpr(tables, d.bound.e)
      modifies this
      ensures var m := L.MintMarked(tables, old(State()), old(binders), old(pol), d, d.names);
        if m.None? then r.None?
        else r.Some? && |group| == |d.names| && m == Some(L.Bound([], [], r.value, binders, State()))
             && binders == L.PushExprs(old(binders), d.names, group)
      ensures r.Some? ==> pol == old(pol) && Valid() && Grows(old(State()), State())
      decreases d, 1, 0
    {
      hide L.LowerFormula, L.LowerRel;
      var cons: seq<Formula> := [];
      group := [];
      var j := 0;
      assert d.names[0..] == d.names && d.names[..0] == [];
      ghost var spec := L.MintMarked(tables, State(), binders, pol, d, d.names);
      JoinedEmpty(spec);
      while j < |d.names|
        invariant j <= |d.names| && pol == old(pol) && Valid() && Grows(old(State()), State())
        invariant |group| == j && binders == L.PushExprs(old(binders), d.names[..j], group)
        invariant spec == Joined(BoundDecls([], [], cons, j), L.MintMarked(tables, State(), binders, pol, d, d.names[j..]))
      {
        var x, c := SkolemizeName(d, j, cons);
        if c.None? { return None, group; }
        PushSnoc(old(binders), d.names, group, j, x);
        cons := cons + c.value;
        group := group + [x];
        j := j + 1;
      }
      assert d.names[..j] == d.names && d.names[j..] == [];
      assert cons + [] == cons;
      r := Some(cons);
    }

    /** One name of a group: mint its relation and push the name. */
    method SkolemizeName(d: SDecl, j: nat, ghost cons: seq<Formula>) returns (x: RelExpr, c: Option<seq<Formula>>)
      requires d.bound.Marked? && j < |d.names| && Valid() && LeavesExpr(tables, d.bound.e)
      modifies this
      ensures Joined(BoundDecls([], [], cons, j), L.MintMarked(tables, old(State()), old(binders), old(pol), d, d.names[j..]))
              == if c.None? then None
                 else Joined(BoundDecls([], [], cons + c.value, j + 1), L.MintMarked(tables, State(), binders, pol, d, d.names[j + 1..]))
      ensures c.Some? ==> binders == old(binders) + [(d.names[j], L.BExpr(x))] && pol == old(pol)
      ensures c.Some? ==> Valid() && Grows(old(State()), State())
      decreases d, 0, 1
    {
      hide L.LowerFormula, L.LowerRel, LeavesFormula, ValidState, UppersOk;
      NamesStep(tables, State(), binders, pol, d, j, cons);
      x, c := MintOne(d);
      if c.Some? {
        ReadyPush(tables, State(), binders, (d.names[j], L.BExpr(x)));
        binders := binders + [(d.names[j], L.BExpr(x))];
      }
    }

    /** One relation of a higher-order group, and its constraints. */
    method MintOne(d: SDecl) returns (x: RelExpr, c: Option<seq<Formula>>)
      requires d.bound.Marked? && Valid() && LeavesExpr(tables, d.bound.e)
      modifies this
      ensures var m := MintSpec(tables, old(State()), old(binders), old(pol), d);
        if m.None? then c.None? else (x, c, State()) == (m.value.0, Some(m.value.1), m.value.2)
      ensures c.Some? ==> Balanced() && Grows(old(State()), State()) && CleanRel(x, State())
      decreases d, 0, 0
    {
      hide L.MarkedCons, L.LowerFormula, L.LowerRel;
      x := RConst(CNone);
      var r := LowerRel(d.bound.e);
      if r.None? { return x, None; }
      var upper := AbstractUpper(r.value, nextVar);
      if upper.None? { return x, None; }
      MintValid(tables, State(), 1, upper.value);
      ReadyGrows(tables, State(), binders, L.MintSkolems(State(), 1, upper.value));
      x := AllocSkolem(upper.value);
      if d.bound.mult == MExactly { return x, None; }
      var again := LowerRel(d.bound.e);
      if again.None? { return x, None; }
      c := Some(L.MarkedCons(d.bound.mult, x, again.value));
    }
  }
}
