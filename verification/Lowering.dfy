/** Lowering source formulas to the intermediate representation, with polarity-driven skolemisation
    (crates/als-core/src/lower.rs). These functions give the result and the new tables of the lowerer's
    walk; `None` is a typed refusal. */
module Lowering {
  import opened Wrappers
  import opened Ir
  import opened Surface
  import opened AbstractUpper

  /** The polarity of the formula being lowered, and whether skolemisation is blocked there. */
  datatype Pol = Pol(positive: bool, blocked: bool)

  function Blocked(pol: Pol): Pol {
    pol.(blocked := true)
  }

  function BlockedIf(pol: Pol, b: bool): Pol {
    pol.(blocked := pol.blocked || b)
  }

  function Flipped(pol: Pol): Pol {
    pol.(positive := !pol.positive)
  }

  /** A formula-valued `let` keeps its right-hand side unlowered, with the height of the binder stack. */
  datatype Binding = BVar(v: VarId) | BExpr(value: RelExpr) | BFormula(target: SFormula, depth: nat)

  type Binders = seq<(string, Binding)>

  /** What binding a declaration list produced: quantified variables with their bounds, disjointness
      of variable groups, constraints on minted skolems, and the extended stack and tables. */
  datatype Bound = Bound(fo: seq<CompDecl>, disj: seq<Formula>, cons: seq<Formula>, bs: Binders, st: LState)

  function Conjoin(parts: seq<Formula>): Formula {
    if |parts| == 0 then Const(true) else if |parts| == 1 then parts[0] else And(parts)
  }

  /** `no (group[a] & group[b])` for every pair. */
  function PairDisjoint(group: seq<RelExpr>): seq<Formula> {
    if group == [] then []
    else
      seq(|group| - 1, j requires 0 <= j < |group| - 1 => MultTest(TNo, RBin(Intersect, group[0], group[j + 1])))
      + PairDisjoint(group[1..])
  }

  function GroupDisjoint(disj: bool, group: seq<RelExpr>): seq<Formula> {
    if disj && |group| >= 2 then PairDisjoint(group) else []
  }

  /** Nested single-variable quantifiers, the first declaration outermost. */
  function WrapQuants(kind: QuantKind, fo: seq<CompDecl>, inner: Formula): Formula {
    if fo == [] then inner else Quant(kind, fo[0].v, fo[0].bound, WrapQuants(kind, fo[1..], inner))
  }

  /** The guards go inside: conjoined under `some`, as the antecedent under `all` and `no`. */
  function Guarded(quant: SQuant, b: Bound, inner: Formula): Formula {
    var guards := (if b.disj == [] then [] else [Conjoin(b.disj)]) + b.cons;
    if guards == [] then inner
    else if quant == QuSome then And(guards + [inner])
    else Implies(Conjoin(guards), inner)
  }

  function EffectiveExistential(quant: SQuant, pol: Pol): bool {
    if quant == QuSome then pol.positive else !pol.positive
  }

  function RelRange(first: nat, n: nat): seq<RelExpr> {
    seq(n, j requires 0 <= j < n => Relation(first + j))
  }

  function VarRange(first: nat, n: nat): seq<RelExpr> {
    seq(n, j requires 0 <= j < n => Var(first + j))
  }

  /** Membership and `one` for each skolem constant. */
  function SkolemCons(group: seq<RelExpr>, bound: RelExpr): seq<Formula> {
    if group == [] then []
    else [RelCompare(Subset, group[0], bound), MultTest(TOne, group[0])] + SkolemCons(group[1..], bound)
  }

  /** Membership in a marked bound, and the marker's own test. */
  function MarkedCons(mult: SetMult, x: RelExpr, bound: RelExpr): seq<Formula> {
    [RelCompare(Subset, x, bound)]
    + (if mult == MSome then [MultTest(TSome, x)] else if mult == MLone then [MultTest(TLone, x)] else [])
  }

  function PushExprs(bs: Binders, names: seq<string>, group: seq<RelExpr>): Binders
    requires |names| == |group|
  {
    bs + seq(|names|, j requires 0 <= j < |names| => (names[j], BExpr(group[j])))
  }

  function PushVars(bs: Binders, names: seq<string>, first: nat): Binders {
    bs + seq(|names|, j requires 0 <= j < |names| => (names[j], BVar(first + j)))
  }

  function MintSkolems(st: LState, n: nat, upper: Upper): LState {
    st.(nextRel := st.nextRel + n,
        skolems := st.skolems + seq(n, j requires 0 <= j < n => (st.nextRel + j, upper)))
  }

  function AllocVars(st: LState, n: nat, bound: RelExpr): LState {
    st.(nextVar := st.nextVar + n,
        varBound := BoundAll(st.varBound, st.nextVar, n, bound))
  }

  /** Records one bound for `n` consecutive variables. */
  function BoundAll(bounds: map<VarId, RelExpr>, first: VarId, n: nat, bound: RelExpr): (r: map<VarId, RelExpr>)
    ensures forall v :: v in r <==> v in bounds || first <= v < first + n
    ensures forall v | v in r :: r[v] == if first <= v < first + n then bound else bounds[v]
  {
    if n == 0 then bounds else BoundAll(bounds, first, n - 1, bound)[first + n - 1 := bound]
  }

  ghost function LowerFormula(k: Tables, st: LState, bs: Binders, pol: Pol, f: SFormula): Option<(Formula, LState)>
    decreases f, 1
  {
    match f
    case FBlock(parts) =>
      var r :- LowerParts(k, st, bs, BlockedIf(pol, !pol.positive && |parts| >= 2), parts);
      Some((Conjoin(r.0), r.1))
    case FCompare(op, negated, l, r) =>
      var a :- LowerRel(k, st, bs, pol, l);
      var b :- LowerRel(k, a.1, bs, pol, r);
      var g := RelCompare(op, a.0, b.0);
      Some((if negated then Not(g) else g, b.1))
    case FNot(g) =>
      var r :- LowerFormula(k, st, bs, Flipped(pol), g);
      Some((Not(r.0), r.1))
    case FAnd(l, r) =>
      var p := BlockedIf(pol, !pol.positive);
      var a :- LowerFormula(k, st, bs, p, l);
      var b :- LowerFormula(k, a.1, bs, p, r);
      Some((And([a.0, b.0]), b.1))
    case FOr(l, r) =>
      var p := BlockedIf(pol, pol.positive);
      var a :- LowerFormula(k, st, bs, p, l);
      var b :- LowerFormula(k, a.1, bs, p, r);
      Some((Or([a.0, b.0]), b.1))
    case FImplies(l, r) =>
      var p := BlockedIf(pol, pol.positive);
      var a :- LowerFormula(k, st, bs, Flipped(p), l);
      var b :- LowerFormula(k, a.1, bs, p, r);
      Some((Implies(a.0, b.0), b.1))
    case FIff(l, r) =>
      var a :- LowerFormula(k, st, bs, Blocked(pol), l);
      var b :- LowerFormula(k, a.1, bs, Blocked(pol), r);
      Some((Iff(a.0, b.0), b.1))
    case FIte(g, t, e) =>
      var c :- LowerFormula(k, st, bs, Blocked(pol), g);
      var a :- LowerFormula(k, c.1, bs, Blocked(pol), t);
      var b :- LowerFormula(k, a.1, bs, Blocked(pol), e);
      Some((Or([And([c.0, a.0]), And([Not(c.0), b.0])]), b.1))
    case FTest(test, e) =>
      var r :- LowerRel(k, st, bs, pol, e);
      Some((MultTest(test, r.0), r.1))
    case FQuant(quant, decls, body) =>
      if quant == QuOne || quant == QuLone then
        var b :- BindDecls(k, st, bs, Blocked(pol), decls, false);
        var r :- LowerFormula(k, b.st, b.bs, Blocked(pol), body);
        Some((MultTest(if quant == QuOne then TOne else TLone, MakeComprehension(b, r.0)), r.1))
      else
        var ee := EffectiveExistential(quant, pol);
        var b :- BindDecls(k, st, bs, pol, decls, ee && !pol.blocked);
        var bodyPol := Pol(if quant == QuNo then !pol.positive else pol.positive, pol.blocked || !ee);
        var r :- LowerFormula(k, b.st, b.bs, bodyPol, body);
        var inner := Guarded(quant, b, if quant == QuNo then Not(r.0) else r.0);
        Some((WrapQuants(if quant == QuSome then QSome else QAll, b.fo, inner), r.1))
    case FLet(lets, body) =>
      var p :- PushLets(k, st, bs, pol, lets);
      LowerFormula(k, p.1, p.0, pol, body)
    case FName(x, target) =>
      var n :- Find(bs, x);
      (match bs[n].1
       case BFormula(t, depth) =>
         if t == target && depth <= |bs| then LowerFormula(k, st, bs[..depth], pol, target) else None
       case _ => None)
  }

  function MakeComprehension(b: Bound, body: Formula): RelExpr {
    Comprehension(b.fo, if b.disj == [] then body else And([Conjoin(b.disj), body]))
  }

  ghost function LowerParts(k: Tables, st: LState, bs: Binders, pol: Pol, parts: seq<SFormula>): Option<(seq<Formula>, LState)>
    decreases parts, 1
  {
    if parts == [] then Some(([], st))
    else
      var a :- LowerFormula(k, st, bs, pol, parts[0]);
      var b :- LowerParts(k, a.1, bs, pol, parts[1..]);
      Some(([a.0] + b.0, b.1))
  }

  ghost function PushLets(k: Tables, st: LState, bs: Binders, pol: Pol, lets: seq<SLet>): Option<(Binders, LState)>
    decreases lets, 1
  {
    if lets == [] then Some((bs, st))
    else
      match lets[0]
      case LetRel(x, e) =>
        var r :- LowerRel(k, st, bs, pol, e);
        PushLets(k, r.1, bs + [(x, BExpr(r.0))], pol, lets[1..])
      case LetFormula(x, g) =>
        PushLets(k, st, bs + [(x, BFormula(g, |bs|))], pol, lets[1..])
  }

  ghost function LowerRel(k: Tables, st: LState, bs: Binders, pol: Pol, e: SExpr): Option<(RelExpr, LState)>
    decreases e, 1
  {
    match e
    case SLeaf(r) => Some((r, st))
    case SName(x) =>
      var n :- Find(bs, x);
      (match bs[n].1
       case BVar(v) => Some((Var(v), st))
       case BExpr(value) => Some((value, st))
       case BFormula(_, _) => None)
    case SBin(op, l, r) =>
      var a :- LowerRel(k, st, bs, pol, l);
      var b :- LowerRel(k, a.1, bs, pol, r);
      Some((RBin(op, a.0, b.0), b.1))
    case SUn(op, g) =>
      var a :- LowerRel(k, st, bs, pol, g);
      Some((RUn(op, a.0), a.1))
    case SIte(c, t, g) =>
      var h :- LowerFormula(k, st, bs, Blocked(pol), c);
      var a :- LowerRel(k, h.1, bs, pol, t);
      var b :- LowerRel(k, a.1, bs, pol, g);
      Some((RIte(h.0, a.0, b.0), b.1))
    case SCompr(decls, body) =>
      var b :- BindDecls(k, st, bs, Blocked(pol), decls, false);
      var r :- LowerFormula(k, b.st, b.bs, Blocked(pol), body);
      Some((MakeComprehension(b, r.0), r.1))
  }

  ghost function BindDecls(k: Tables, st: LState, bs: Binders, pol: Pol, decls: seq<SDecl>, allowed: bool): Option<Bound>
    decreases decls, 1
  {
    if decls == [] then Some(Bound([], [], [], bs, st))
    else
      var a :- BindDecl(k, st, bs, pol, decls[0], allowed);
      var b :- BindDecls(k, a.st, a.bs, pol, decls[1..], allowed);
      Some(Bound(a.fo + b.fo, a.disj + b.disj, a.cons + b.cons, b.bs, b.st))
  }

  /** One declaration: a marked bound is skolemised or refused; a tuple bound is skolemised when
      allowed and its bound has a static upper, and otherwise quantified. */
  ghost function BindDecl(k: Tables, st: LState, bs: Binders, pol: Pol, d: SDecl, allowed: bool): Option<Bound>
    decreases d, 2
  {
    match d.bound
    case Marked(mult, e) =>
      if !allowed then None
      else
        var m :- MintMarked(k, st, bs, pol, d, d.names);
        Some(Bound([], [], m.cons + GroupDisjoint(d.disj, Group(m.bs, |d.names|)), m.bs, m.st))
    case Each(e) =>
      var r :- LowerRel(k, st, bs, pol, e);
      var (bound, st1) := r;
      var n := |d.names|;
      var upper := UpperOf(k, st1, bound, st1.nextVar);
      if allowed && upper.Some? then
        var group := RelRange(st1.nextRel, n);
        Some(Bound([], [], SkolemCons(group, bound) + GroupDisjoint(d.disj, group),
                   PushExprs(bs, d.names, group), MintSkolems(st1, n, upper.value)))
      else
        Some(Bound(seq(n, j requires 0 <= j < n => CompDecl(st1.nextVar + j, bound)),
                   GroupDisjoint(d.disj, VarRange(st1.nextVar, n)), [],
                   PushVars(bs, d.names, st1.nextVar), AllocVars(st1, n, bound)))
  }

  /** The values of the last `n` stack entries. */
  function Group(bs: Binders, n: nat): seq<RelExpr> {
    seq(n, j requires 0 <= j < n =>
      if n <= |bs| && bs[|bs| - n + j].1.BExpr? then bs[|bs| - n + j].1.value else RConst(CNone))
  }

  /** Mints one skolem relation per name. The bound is lowered afresh for every name, twice, under the
      names already pushed. */
  ghost function MintMarked(k: Tables, st: LState, bs: Binders, pol: Pol, d: SDecl, names: seq<string>): Option<Bound>
    requires d.bound.Marked?
    decreases d, 1, |names|
  {
    if names == [] then Some(Bound([], [], [], bs, st))
    else
      var r :- LowerRel(k, st, bs, pol, d.bound.e);
      var upper :- UpperOf(k, r.1, r.0, r.1.nextVar);
      var st1 := MintSkolems(r.1, 1, upper);
      var x := Relation(r.1.nextRel);
      if d.bound.mult == MExactly then None
      else
        var c :- LowerRel(k, st1, bs, pol, d.bound.e);
        var cons := MarkedCons(d.bound.mult, x, c.0);
        var rest :- MintMarked(k, c.1, bs + [(names[0], BExpr(x))], pol, d, names[1..]);
        Some(Bound([], [], cons + rest.cons, rest.bs, rest.st))
  }
}
