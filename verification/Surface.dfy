/** Resolved source formulas and their lexical meaning: names denote what the innermost enclosing
    binding gave them, a formula-valued `let` denotes its right-hand side read where it was bound. */
module Surface {
  import opened Wrappers
  import opened Algebra
  import opened Ir
  import opened Plain
  import opened Semantics

  datatype SetMult = MSet | MSome | MLone | MExactly

  /** A declaration bound: `e` or `one e` ranges over the tuples of `e`; a marked bound ranges over its
      sub-relations. */
  datatype SBound = Each(e: SExpr) | Marked(mult: SetMult, e: SExpr)

  datatype SDecl = SDecl(names: seq<string>, disj: bool, bound: SBound)

  datatype SExpr =
    | SLeaf(denote: RelExpr)
    | SName(name: string)
    | SBin(op: RelBinOp, l: SExpr, r: SExpr)
    | SUn(uop: RelUnOp, e: SExpr)
    | SIte(cond: SFormula, t: SExpr, els: SExpr)
    | SCompr(decls: seq<SDecl>, body: SFormula)

  datatype SQuant = QuAll | QuSome | QuNo | QuOne | QuLone

  datatype SLet = LetRel(name: string, value: SExpr) | LetFormula(name: string, formula: SFormula)

  /** `FName` is a use of a formula-valued `let`; the resolver has found the formula it names. */
  datatype SFormula =
    | FBlock(parts: seq<SFormula>)
    | FCompare(op: RelCmpOp, negated: bool, l: SExpr, r: SExpr)
    | FNot(f: SFormula)
    | FAnd(left: SFormula, right: SFormula)
    | FOr(left: SFormula, right: SFormula)
    | FImplies(left: SFormula, right: SFormula)
    | FIff(left: SFormula, right: SFormula)
    | FIte(cond: SFormula, t: SFormula, els: SFormula)
    | FTest(test: MultTest, e: SExpr)
    | FQuant(quant: SQuant, decls: seq<SDecl>, body: SFormula)
    | FLet(lets: seq<SLet>, body: SFormula)
    | FName(name: string, target: SFormula)

  /** What a name denotes: a relation, or a formula read under the bindings before it. */
  datatype SVal = VRel(value: TupleSet) | VFormula(target: SFormula)

  type SEnv = seq<(string, SVal)>

  /** The innermost entry with this name. */
  function Find<T>(s: seq<(string, T)>, x: string): (r: Option<nat>)
    ensures r.Some? ==> r.value < |s| && s[r.value].0 == x
  {
    if s == [] then None
    else if s[|s| - 1].0 == x then Some(|s| - 1)
    else Find(s[..|s| - 1], x)
  }

  function Bind(names: seq<string>, values: seq<TupleSet>): SEnv
    requires |names| == |values|
  {
    seq(|names|, j requires 0 <= j < |names| => (names[j], VRel(values[j])))
  }

  /** One value of a name declared with this bound. */
  ghost predicate InBound(bound: SBound, range: TupleSet, value: TupleSet) {
    match bound
    case Each(_) => exists t :: t in range && value == {t}
    case Marked(m, _) =>
      match m
      case MSet => value <= range
      case MSome => value <= range && value != {}
      case MLone => value <= range && |value| <= 1
      case MExactly => value == range
  }

  ghost predicate PairwiseDisjoint(values: seq<TupleSet>) {
    forall a, b | 0 <= a < b < |values| :: values[a] * values[b] == {}
  }

  /** Values for the names of one declaration: its bound is read once, outside the names. */
  ghost predicate Admissible(i: Inst, s: SEnv, d: SDecl, values: seq<TupleSet>)
    decreases d, 0
  {
    var range := SrcValue(i, s, d.bound.e);
    && |values| == |d.names|
    && (forall j | 0 <= j < |values| :: InBound(d.bound, range, values[j]))
    && (d.disj ==> PairwiseDisjoint(values))
  }

  /** `s'` extends `s` by values for every declared name, later bounds seeing earlier names. */
  ghost predicate Extends(i: Inst, s: SEnv, ds: seq<SDecl>, s': SEnv)
    decreases ds, 0
  {
    if ds == [] then s' == s
    else exists values :: Admissible(i, s, ds[0], values) && Extends(i, s + Bind(ds[0].names, values), ds[1..], s')
  }

  ghost predicate SrcHolds(i: Inst, s: SEnv, f: SFormula)
    decreases f, 1
  {
    match f
    case FBlock(parts) => forall k | 0 <= k < |parts| :: SrcHolds(i, s, parts[k])
    case FCompare(op, negated, l, r) => CompareSets(op, SrcValue(i, s, l), SrcValue(i, s, r)) != negated
    case FNot(g) => !SrcHolds(i, s, g)
    case FAnd(l, r) => SrcHolds(i, s, l) && SrcHolds(i, s, r)
    case FOr(l, r) => SrcHolds(i, s, l) || SrcHolds(i, s, r)
    case FImplies(l, r) => SrcHolds(i, s, l) ==> SrcHolds(i, s, r)
    case FIff(l, r) => SrcHolds(i, s, l) == SrcHolds(i, s, r)
    case FIte(g, t, e) => if SrcHolds(i, s, g) then SrcHolds(i, s, t) else SrcHolds(i, s, e)
    case FTest(test, e) => TestHolds(test, SrcValue(i, s, e))
    case FQuant(q, decls, body) =>
      (match q
       case QuAll => forall s' :: Extends(i, s, decls, s') ==> SrcHolds(i, s', body)
       case QuSome => exists s' :: Extends(i, s, decls, s') && SrcHolds(i, s', body)
       case QuNo => !exists s' :: Extends(i, s, decls, s') && SrcHolds(i, s', body)
       case _ =>
         var tuples := set ts | ts in Choices(i, s, decls) && SrcHolds(i, s + Bind(AllNames(decls), Singletons(ts)), body) :: Flatten(ts);
         if q == QuOne then |tuples| == 1 else |tuples| <= 1)
    case FLet(lets, body) => SrcHolds(i, SrcLets(i, s, lets), body)
    case FName(x, target) =>
      var n := Find(s, x);
      n.Some? && s[n.value].1 == VFormula(target) && SrcHolds(i, s[..n.value], target)
  }

  ghost function SrcLets(i: Inst, s: SEnv, lets: seq<SLet>): SEnv
    decreases lets, 0
  {
    if lets == [] then s
    else
      var b := match lets[0]
        case LetRel(x, e) => (x, VRel(SrcValue(i, s, e)))
        case LetFormula(x, g) => (x, VFormula(g));
      SrcLets(i, s + [b], lets[1..])
  }

  ghost function SrcValue(i: Inst, s: SEnv, e: SExpr): TupleSet
    decreases e, 1
  {
    match e
    case SLeaf(r) => Value(i, map[], r)
    case SName(x) =>
      var n := Find(s, x);
      if n.Some? && s[n.value].1.VRel? then s[n.value].1.value else {}
    case SBin(op, l, r) => BinValue(op, SrcValue(i, s, l), SrcValue(i, s, r))
    case SUn(op, g) => Plain.UnValue(i, op, SrcValue(i, s, g))
    case SIte(c, t, g) => if SrcHolds(i, s, c) then SrcValue(i, s, t) else SrcValue(i, s, g)
    case SCompr(decls, body) =>
      set ts | ts in Choices(i, s, decls) && SrcHolds(i, s + Bind(AllNames(decls), Singletons(ts)), body) :: Flatten(ts)
  }

  /** One tuple per declared name, for declarations that range over tuples. */
  ghost function Choices(i: Inst, s: SEnv, ds: seq<SDecl>): (r: set<seq<Tuple>>)
    ensures forall ts | ts in r :: |ts| == |AllNames(ds)|
    decreases ds, 0
  {
    if ds == [] then {[]}
    else if ds[0].bound.Marked? then {}
    else
      var group := Draws(SrcValue(i, s, ds[0].bound.e), |ds[0].names|, ds[0].disj);
      set g, rest | g in group && rest in Choices(i, s + Bind(ds[0].names, Singletons(g)), ds[1..]) :: g + rest
  }

  function AllNames(ds: seq<SDecl>): seq<string> {
    if ds == [] then [] else ds[0].names + AllNames(ds[1..])
  }

  /** All sequences of `n` tuples of `range`, without repetition when they must be disjoint. */
  ghost function Draws(range: TupleSet, n: nat, disj: bool): (r: set<seq<Tuple>>)
    ensures forall ts :: ts in r <==> |ts| == n && (forall j | 0 <= j < n :: ts[j] in range)
                                      && (disj ==> forall a, b | 0 <= a < b < n :: ts[a] != ts[b])
  {
    if n == 0 then {[]}
    else
      var shorter := Draws(range, n - 1, disj);
      var r := set ts, t | ts in shorter && t in range && (disj ==> t !in ts) :: ts + [t];
      assert forall ts: seq<Tuple> | |ts| == n :: ts == ts[..n - 1] + [ts[n - 1]];
      r
  }

  function Singletons(ts: seq<Tuple>): (r: seq<TupleSet>)
    ensures |r| == |ts| && forall j | 0 <= j < |ts| :: r[j] == {ts[j]}
  {
    seq(|ts|, j requires 0 <= j < |ts| => {ts[j]})
  }

  function Flatten(ts: seq<Tuple>): Tuple {
    if ts == [] then [] else ts[0] + Flatten(ts[1..])
  }
}
