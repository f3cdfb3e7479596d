/** What the emitted bounds and constraints enforce of the sig hierarchy
    (crates/als-core/src/bounds_builder.rs): every sig between its bounds, within its scope, siblings apart. */
module SigBounds {
  import opened Wrappers
  import opened Sets
  import opened Scopes
  import opened SigForest
  import opened Algebra
  import opened Ir
  import opened Folder
  import opened Plain
  import opened Freshness
  import opened Lowering
  import opened LoweringMeaning
  import opened SizeWitness

  /** The relation of each leaf sig, and of each concrete parent's remainder. */
  datatype Rels = Rels(leaf: map<nat, RelId>, remainder: map<nat, RelId>)

  function LeafRel(r: Rels, t: Node): RelExpr {
    if t.sig in r.leaf then Relation(r.leaf[t.sig]) else RConst(CNone)
  }

  function RemainderRel(r: Rels, t: Node): RelExpr {
    if t.sig in r.remainder then Relation(r.remainder[t.sig]) else RConst(CNone)
  }

  predicate HasRemainder(t: Node) {
    t.kids != [] && !t.isAbstract
  }

  /** How a sig is denoted: a leaf by its relation, a parent by its children and its remainder. */
  function Denote(r: Rels, t: Node): RelExpr {
    if t.kids == [] then LeafRel(r, t)
    else UnionOf(KidDenotes(r, t.kids) + if HasRemainder(t) then [RemainderRel(r, t)] else [])
  }

  function KidDenotes(r: Rels, ts: seq<Node>): (d: seq<RelExpr>)
    ensures |d| == |ts|
  {
    if ts == [] then [] else KidDenotes(r, ts[..|ts| - 1]) + [Denote(r, ts[|ts| - 1])]
  }

  /** The set a sig denotes. */
  ghost function Den(i: Inst, r: Rels, t: Node): TupleSet {
    if t.kids == [] then Value(i, map[], LeafRel(r, t))
    else KidsDen(i, r, t.kids) + if HasRemainder(t) then Value(i, map[], RemainderRel(r, t)) else {}
  }

  ghost function KidsDen(i: Inst, r: Rels, ts: seq<Node>): TupleSet {
    if ts == [] then {} else KidsDen(i, r, ts[..|ts| - 1]) + Den(i, r, ts[|ts| - 1])
  }

  /** Above every relation of the table. */
  ghost predicate RelsBelow(r: Rels, nr: nat) {
    && (forall s | s in r.leaf :: r.leaf[s] < nr)
    && (forall s | s in r.remainder :: r.remainder[s] < nr)
  }

  lemma {:induction false} UnionValue(i: Inst, env: Env, parts: seq<RelExpr>, last: RelExpr)
    ensures Value(i, env, UnionOf(parts + [last])) == Value(i, env, UnionOf(parts)) + Value(i, env, last)
  {
    assert (parts + [last])[..|parts|] == parts;
  }

  lemma {:induction false} DenoteMeans(i: Inst, env: Env, r: Rels, t: Node)
    ensures Value(i, env, Denote(r, t)) == Den(i, r, t)
    decreases t, 1
  {
    if t.kids != [] {
      KidDenotesMean(i, env, r, t.kids);
      UnionValue(i, env, KidDenotes(r, t.kids), RemainderRel(r, t));
      assert KidDenotes(r, t.kids) + [] == KidDenotes(r, t.kids);
    }
  }

  lemma {:induction false} KidDenotesMean(i: Inst, env: Env, r: Rels, ts: seq<Node>)
    ensures Value(i, env, UnionOf(KidDenotes(r, ts))) == KidsDen(i, r, ts)
    decreases ts, 0
  {
    if ts != [] {
      KidDenotesMean(i, env, r, ts[..|ts| - 1]);
      DenoteMeans(i, env, r, ts[|ts| - 1]);
      UnionValue(i, env, KidDenotes(r, ts[..|ts| - 1]), Denote(r, ts[|ts| - 1]));
    }
  }

  lemma {:induction false} UnionBelow(parts: seq<RelExpr>, nv: nat, nr: nat)
    requires forall e | e in parts :: BelowRel(e, nv, nr)
    ensures BelowRel(UnionOf(parts), nv, nr)
    decreases |parts|
  {
    if |parts| > 1 {
      UnionBelow(parts[..|parts| - 1], nv, nr);
      assert parts[|parts| - 1] in parts;
    } else if |parts| == 1 {
      assert parts[0] in parts;
    }
  }

  lemma {:induction false} DenoteBelow(r: Rels, t: Node, nv: nat, nr: nat)
    requires RelsBelow(r, nr)
    ensures BelowRel(Denote(r, t), nv, nr)
    decreases t, 1
  {
    if t.kids != [] {
      KidDenotesBelow(r, t.kids, nv, nr);
      UnionBelow(KidDenotes(r, t.kids) + if HasRemainder(t) then [RemainderRel(r, t)] else [], nv, nr);
    }
  }

  lemma {:induction false} KidDenotesBelow(r: Rels, ts: seq<Node>, nv: nat, nr: nat)
    requires RelsBelow(r, nr)
    ensures forall e | e in KidDenotes(r, ts) :: BelowRel(e, nv, nr)
    decreases ts, 0
  {
    if ts != [] {
      KidDenotesBelow(r, ts[..|ts| - 1], nv, nr);
      DenoteBelow(r, ts[|ts| - 1], nv, nr);
    }
  }

  // ------------------------------------------------------------------ the bounds

  function Unary(atoms: set<nat>): TupleSet {
    set a | a in atoms :: [a]
  }

  lemma UnarySize(atoms: set<nat>)
    ensures |Unary(atoms)| == |atoms|
    decreases |atoms|
  {
    if atoms != {} {
      var a :| a in atoms;
      UnarySize(atoms - {a});
      assert Unary(atoms) == Unary(atoms - {a}) + {[a]};
      assert [a] !in Unary(atoms - {a});
    } else {
      assert Unary(atoms) == {};
    }
  }

  lemma UnaryMonotone(a: set<nat>, b: set<nat>)
    requires a <= b
    ensures Unary(a) <= Unary(b)
  {
  }

  lemma UnaryUnion(a: set<nat>, b: set<nat>)
    ensures Unary(a + b) == Unary(a) + Unary(b)
  {
  }

  /** The bound a sig's own relation gets. */
  function OwnBound(p: Place): RelBound {
    if p.t.kids == [] then RelBound(Unary(Lower(p)), Unary(Upper(p)))
    else RelBound(if p.t.exact then Unary(Floating(p)) else {}, Unary(Floating(p)))
  }

  ghost predicate Between(b: RelBound, v: TupleSet) {
    b.lower <= v <= b.upper
  }

  /** The sig's own relation lies inside its bound. */
  ghost predicate PlaceInside(i: Inst, r: Rels, p: Place) {
    && (p.t.kids == [] ==> Between(OwnBound(p), Value(i, map[], LeafRel(r, p.t))))
    && (HasRemainder(p.t) ==> Between(OwnBound(p), Value(i, map[], RemainderRel(r, p.t))))
  }

  ghost predicate Inside(i: Inst, r: Rels, p: Place) {
    forall q | q in Places(p) :: PlaceInside(i, r, q)
  }

  lemma KidInside(i: Inst, r: Rels, p: Place, k: nat)
    requires Inside(i, r, p) && k < |p.t.kids|
    ensures Inside(i, r, Kid(p, k))
  {
    forall q | q in Places(Kid(p, k)) ensures PlaceInside(i, r, q) { assert q in Below(p, k); }
  }

  lemma {:induction false} InKidsDen(i: Inst, r: Rels, ts: seq<Node>, u: Tuple)
    ensures u in KidsDen(i, r, ts) <==> exists k: nat :: k < |ts| && u in Den(i, r, ts[k])
    decreases |ts|
  {
    if ts != [] { InKidsDen(i, r, ts[..|ts| - 1], u); }
  }

  /** Whatever the constraints, a sig never leaves its upper bound. */
  lemma {:induction false} WithinUpper(i: Inst, r: Rels, p: Place)
    requires Inside(i, r, p)
    ensures Den(i, r, p.t) <= Unary(Upper(p))
    decreases p.t
  {
    assert p in Places(p) && PlaceInside(i, r, p);
    if p.t.kids != [] {
      forall u | u in Den(i, r, p.t) ensures u in Unary(Upper(p)) {
        InKidsDen(i, r, p.t.kids, u);
        if k: nat :| k < |p.t.kids| && u in Den(i, r, p.t.kids[k]) {
          KidInside(i, r, p, k);
          WithinUpper(i, r, Kid(p, k));
          KidUpper(p, k);
          UnaryMonotone(Upper(Kid(p, k)), Upper(p));
        } else {
          UnaryMonotone(Floating(p), Upper(p));
        }
      }
    }
  }

  // ------------------------------------------------------------------ the size constraint

  /** An abstract exact parent the children's lower bounds do not fill. */
  predicate Underfilled(p: Place) {
    p.t.exact && p.t.isAbstract && p.t.kids != [] && KidsCount(p.t.kids) < FinalScope(p.t)
  }

  function SizeConstraint(r: Rels, p: Place, v: VarId): seq<Formula> {
    var n, d := FinalScope(p.t), Denote(r, p.t);
    if Underfilled(p) then [if n == 0 then MultTest(TNo, d) else ExactWitness(d, n, v)]
    else if |Upper(p)| <= n then []
    else if n == 0 then [MultTest(TNo, d)]
    else if n == 1 then [MultTest(TLone, d)]
    else [Or([MultTest(TNo, d), AtMostWitness(d, n, v)])]
  }

  ghost predicate SizeOk(i: Inst, r: Rels, p: Place) {
    var n := |Den(i, r, p.t)|;
    n <= FinalScope(p.t) && (p.t.exact ==> n == FinalScope(p.t))
  }

  /** The sig holds at least what its children must hold. */
  ghost predicate KidsFilled(i: Inst, r: Rels, p: Place) {
    Unary(Interval(p.first, KidsCount(p.t.kids))) <= Den(i, r, p.t)
  }

  ghost predicate LowerFilled(i: Inst, r: Rels, p: Place) {
    Unary(Lower(p)) <= Den(i, r, p.t)
  }

  /** Once the children's lower bounds are met, the emitted formula holds exactly when the size is right. */
  lemma SizeMeaning(i: Inst, env: Env, r: Rels, p: Place, v: VarId, nr: nat)
    requires RelsBelow(r, nr) && Clear(p) && Inside(i, r, p) && KidsFilled(i, r, p)
    ensures AllHold(i, env, SizeConstraint(r, p, v)) <==> SizeOk(i, r, p)
    ensures SizeOk(i, r, p) ==> LowerFilled(i, r, p)
  {
    hide Value, Holds, Upper, Lower, FinalScope, KidsCount, Interval, Den;
    hide Denote, Inside, Unary, RelsBelow, Clear, ExactWitness, AtMostWitness;
    var n, d, s := FinalScope(p.t), Denote(r, p.t), Den(i, r, p.t);
    DenoteMeans(i, env, r, p.t);
    DenoteBelow(r, p.t, v, nr);
    WithinUpper(i, r, p);
    UnarySize(Upper(p));
    SubsetSize(s, Unary(Upper(p)));
    BoundSizes(p);
    UnaryMonotone(Lower(p), Upper(p));
    if Underfilled(p) {
      ExactMeaning(i, env, d, n, v, nr);
      OneHolds(i, env, ExactWitness(d, n, v));
    } else if |Upper(p)| <= n {
      if p.t.exact { ExactFilled(i, r, p); }
      AllHoldNone(i, env);
    } else {
      AtMostN(i, env, d, n, v, nr);
    }
    if !p.t.exact { assert Lower(p) == Interval(p.first, KidsCount(p.t.kids)) by { LowerInexact(p); } }
  }

  lemma LowerInexact(p: Place)
    requires !p.t.exact
    ensures Lower(p) == Interval(p.first, KidsCount(p.t.kids))
  {
  }

  lemma AllHoldNone(i: Inst, env: Env)
    ensures AllHold(i, env, [])
  {
  }

  /** The three forms of the cap. */
  lemma AtMostN(i: Inst, env: Env, d: RelExpr, n: nat, v: VarId, nr: nat)
    requires BelowRel(d, v, nr)
    ensures var cap := if n == 0 then MultTest(TNo, d) else if n == 1 then MultTest(TLone, d) else Or([MultTest(TNo, d), AtMostWitness(d, n, v)]);
      AllHold(i, env, [cap]) <==> |Value(i, env, d)| <= n
  {
    hide Value, BelowRel, AtMostWitness;
    var s := Value(i, env, d);
    if n == 0 {
      OneHolds(i, env, MultTest(TNo, d));
      assert |s| <= 0 <==> s == {};
    } else if n == 1 {
      OneHolds(i, env, MultTest(TLone, d));
    } else {
      var parts := [MultTest(TNo, d), AtMostWitness(d, n, v)];
      AtMostMeaning(i, env, d, n, v, nr);
      OneHolds(i, env, Or(parts));
      assert Holds(i, env, Or(parts)) <==> Holds(i, env, parts[0]) || Holds(i, env, parts[1]);
      assert Holds(i, env, parts[0]) <==> s == {};
      assert s == {} <==> |s| == 0;
    }
  }

  /** An exact sig that is not underfilled fills its upper bound by its own relation and its children. */
  lemma ExactFilled(i: Inst, r: Rels, p: Place)
    requires p.t.exact && !Underfilled(p) && Clear(p) && Inside(i, r, p) && KidsFilled(i, r, p)
    ensures Den(i, r, p.t) == Unary(Upper(p))
  {
    hide Value, Interval, KidsCount, KidsDen;
    WithinUpper(i, r, p);
    BoundSizes(p);
    assert p in Places(p) && PlaceInside(i, r, p);
    if p.t.kids != [] {
      var run := Interval(p.first, KidsCount(p.t.kids));
      if p.t.isAbstract {
        assert Own(p.t, p.top) == 0;
        assert Lower(p) == run;
      } else {
        assert Upper(p) <= run + Floating(p);
        UnaryUnion(run, Floating(p));
        UnaryMonotone(Upper(p), run + Floating(p));
        assert Unary(Floating(p)) <= Den(i, r, p.t);
      }
    } else {
      assert Unary(Lower(p)) <= Den(i, r, p.t);
    }
  }

  // ------------------------------------------------------------------ multiplicities and siblings

  /** `some` needs a formula only when nothing must be in the sig, `one` only when no bound pins it. */
  function MultConstraint(r: Rels, p: Place): seq<Formula> {
    match p.t.mult
    case Some(SomeMult) => if Lower(p) == {} then [MultTest(TSome, Denote(r, p.t))] else []
    case Some(One) => if |Lower(p)| == 1 && |Upper(p)| == 1 then [] else [MultTest(TOne, Denote(r, p.t))]
    case _ => []
  }

  ghost predicate MultOk(i: Inst, r: Rels, p: Place) {
    && (p.t.mult == Some(SomeMult) ==> Den(i, r, p.t) != {})
    && (p.t.mult == Some(One) ==> |Den(i, r, p.t)| == 1)
  }

  lemma MultMeaning(i: Inst, env: Env, r: Rels, p: Place)
    requires Inside(i, r, p) && LowerFilled(i, r, p)
    ensures AllHold(i, env, MultConstraint(r, p)) <==> MultOk(i, r, p)
  {
    hide Den, Denote, Value, Inside, Lower, Upper;
    var d, s := Denote(r, p.t), Den(i, r, p.t);
    DenoteMeans(i, env, r, p.t);
    WithinUpper(i, r, p);
    UnarySize(Lower(p));
    UnarySize(Upper(p));
    SubsetSize(s, Unary(Upper(p)));
    SubsetSize(Unary(Lower(p)), s);
    OneHolds(i, env, MultTest(TSome, d));
    OneHolds(i, env, MultTest(TOne, d));
    AllHoldNone(i, env);
  }

  /** The children of a sig share no atom. */
  ghost predicate SiblingsApart(i: Inst, r: Rels, t: Node) {
    forall j: nat, k: nat | j < k < |t.kids| :: Den(i, r, t.kids[j]) * Den(i, r, t.kids[k]) == {}
  }

  lemma {:induction false} KidDenoteAt(r: Rels, ts: seq<Node>, k: nat)
    requires k < |ts|
    ensures KidDenotes(r, ts)[k] == Denote(r, ts[k])
    decreases |ts|
  {
    if k < |ts| - 1 { KidDenoteAt(r, ts[..|ts| - 1], k); }
  }

  lemma DisjointMeaning(i: Inst, env: Env, r: Rels, t: Node)
    ensures AllHold(i, env, PairDisjoint(KidDenotes(r, t.kids))) <==> SiblingsApart(i, r, t)
  {
    hide Den, Denote, Value, KidDenotes, PairDisjoint;
    var group := KidDenotes(r, t.kids);
    PairsHold(i, env, group);
    var values := GroupValues(i, env, group);
    forall k: nat | k < |t.kids| ensures values[k] == Den(i, r, t.kids[k]) {
      KidDenoteAt(r, t.kids, k);
      DenoteMeans(i, env, r, t.kids[k]);
    }
  }

  // ------------------------------------------------------------------ the whole hierarchy

  /** What is emitted for one sig; `v` is its first witness variable. */
  function SigConstraints(r: Rels, p: Place, v: VarId): seq<Formula> {
    PairDisjoint(KidDenotes(r, p.t.kids)) + SizeConstraint(r, p, v) + MultConstraint(r, p)
  }

  /** The command's scopes, as far as one sig goes. */
  ghost predicate ScopeKept(i: Inst, r: Rels, p: Place) {
    && LowerFilled(i, r, p) && Den(i, r, p.t) <= Unary(Upper(p))
    && SizeOk(i, r, p) && SiblingsApart(i, r, p.t) && MultOk(i, r, p)
  }

  ghost predicate Emitted(i: Inst, env: Env, r: Rels, p: Place, v: VarId) {
    AllHold(i, env, SigConstraints(r, p, v))
  }

  lemma SigMeaning(i: Inst, env: Env, r: Rels, p: Place, v: VarId, nr: nat)
    requires RelsBelow(r, nr) && Clear(p) && Inside(i, r, p) && KidsFilled(i, r, p)
    ensures Emitted(i, env, r, p, v) <==> ScopeKept(i, r, p)
  {
    hide SizeConstraint, MultConstraint, PairDisjoint, SizeOk, MultOk, SiblingsApart, LowerFilled, Inside, KidsFilled;
    WithinUpper(i, r, p);
    SizeMeaning(i, env, r, p, v, nr);
    DisjointMeaning(i, env, r, p.t);
    AllHoldJoin(i, env, PairDisjoint(KidDenotes(r, p.t.kids)) + SizeConstraint(r, p, v), MultConstraint(r, p));
    AllHoldJoin(i, env, PairDisjoint(KidDenotes(r, p.t.kids)), SizeConstraint(r, p, v));
    if SizeOk(i, r, p) { MultMeaning(i, env, r, p); }
  }

  lemma KidsLowerFilled(i: Inst, r: Rels, p: Place)
    requires forall k: nat | k < |p.t.kids| :: LowerFilled(i, r, Kid(p, k))
    ensures KidsFilled(i, r, p)
  {
    hide KidsCount, Interval, Lower;
    forall u | u in Unary(Interval(p.first, KidsCount(p.t.kids))) ensures u in Den(i, r, p.t) {
      var a :| a in Interval(p.first, KidsCount(p.t.kids)) && u == [a];
      KidLowers(p, a);
      var k: nat :| k < |p.t.kids| && a in Lower(Kid(p, k));
      assert u in Unary(Lower(Kid(p, k)));
      assert LowerFilled(i, r, Kid(p, k));
      InKidsDen(i, r, p.t.kids, u);
    }
  }

  /** With every own relation inside its bound, the emitted formulas of a whole subtree hold exactly when
      every sig of it keeps its scope; `vars` gives each sig its witness variables. */
  lemma {:induction false} ScopesEnforced(i: Inst, env: Env, r: Rels, p: Place, vars: map<Place, VarId>, nr: nat)
    requires RelsBelow(r, nr) && Clear(p) && Inside(i, r, p) && Places(p) <= vars.Keys
    ensures (forall q | q in Places(p) :: Emitted(i, env, r, q, vars[q])) <==> (forall q | q in Places(p) :: ScopeKept(i, r, q))
    decreases p.t
  {
    hide Emitted, ScopeKept, Inside, RelsBelow, Clear;
    var emitted := forall q | q in Places(p) :: Emitted(i, env, r, q, vars[q]);
    var kept := forall q | q in Places(p) :: ScopeKept(i, r, q);
    forall k: nat | k < |p.t.kids|
      ensures KidAgrees(i, env, r, p, k, vars)
    {
      KidClear(p, k);
      KidInside(i, r, p, k);
      forall q | q in Places(Kid(p, k)) ensures q in Places(p) { assert q in Below(p, k); }
      ScopesEnforced(i, env, r, Kid(p, k), vars, nr);
      assert Kid(p, k) in Places(Kid(p, k));
    }
    if emitted || kept {
      forall k: nat | k < |p.t.kids|
        ensures LowerFilled(i, r, Kid(p, k))
        ensures forall q | q in Below(p, k) :: ScopeKept(i, r, q) && Emitted(i, env, r, q, vars[q])
      {
        assert KidAgrees(i, env, r, p, k, vars);
        forall q | q in Below(p, k) ensures q in Places(p) { }
        KeptFills(i, r, Kid(p, k));
      }
      KidsLowerFilled(i, r, p);
      SigMeaning(i, env, r, p, vars[p], nr);
      assert p in Places(p);
      forall q | q in Places(p) ensures ScopeKept(i, r, q) && Emitted(i, env, r, q, vars[q]) {
        if q != p { var k := PlaceBelow(p, q); }
      }
    }
  }

  ghost predicate KidAgrees(i: Inst, env: Env, r: Rels, p: Place, k: nat, vars: map<Place, VarId>)
    requires k < |p.t.kids|
  {
    && Below(p, k) <= vars.Keys && Kid(p, k) in Below(p, k)
    && ((forall q | q in Below(p, k) :: Emitted(i, env, r, q, vars[q])) <==> (forall q | q in Below(p, k) :: ScopeKept(i, r, q)))
  }

  lemma KeptFills(i: Inst, r: Rels, p: Place)
    ensures ScopeKept(i, r, p) ==> LowerFilled(i, r, p)
  {
  }

  /** The same for the whole forest. */
  lemma ForestEnforced(i: Inst, env: Env, r: Rels, forest: seq<Node>, vars: map<Place, VarId>, nr: nat)
    requires RelsBelow(r, nr) && AllPlaces(forest) <= vars.Keys
    requires forall q | q in AllPlaces(forest) :: PlaceInside(i, r, q)
    ensures (forall q | q in AllPlaces(forest) :: Emitted(i, env, r, q, vars[q])) <==> (forall q | q in AllPlaces(forest) :: ScopeKept(i, r, q))
  {
    hide Emitted, ScopeKept, PlaceInside, RelsBelow, Places;
    forall k: nat | k < |forest|
      ensures (forall q | q in Tree(forest, k) :: Emitted(i, env, r, q, vars[q])) <==> (forall q | q in Tree(forest, k) :: ScopeKept(i, r, q))
    {
      forall q | q in Tree(forest, k) ensures q in AllPlaces(forest) { }
      ScopesEnforced(i, env, r, Root(forest, k), vars, nr);
    }
  }

  // ------------------------------------------------------------------ what the silent raise costs

  /** A sig keeps the scope derived for it exactly when its children's lower bounds fit in that scope:
      otherwise the walk has raised the scope, and no instance keeps the derived one. */
  lemma DerivedScopeExact(i: Inst, r: Rels, p: Place)
    requires ScopeKept(i, r, p)
    ensures |Den(i, r, p.t)| <= p.t.scope <==> KidsCount(p.t.kids) <= p.t.scope
  {
    hide Den, KidsCount, Lower, Upper, Unary;
    UnarySize(Lower(p));
    SubsetSize(Unary(Lower(p)), Den(i, r, p.t));
  }

  /** `lone` gets no formula of its own, so it holds exactly when the children need at most one atom. */
  lemma LoneExact(i: Inst, r: Rels, p: Place)
    requires ScopeKept(i, r, p) && p.t.mult == Some(Lone) && p.t.scope <= 1
    ensures |Den(i, r, p.t)| <= 1 <==> KidsCount(p.t.kids) <= 1
  {
    hide Den, KidsCount, Lower, Upper, Unary;
    UnarySize(Lower(p));
    SubsetSize(Unary(Lower(p)), Den(i, r, p.t));
  }
}
