/** The hand-built total-order formula and the ordering constants the bounds phase installs
    (crates/als-core/src/lower.rs, crates/als-core/src/bounds_builder.rs). */
module TotalOrder {
  import opened Algebra
  import opened Sets
  import opened Closure
  import opened Ir
  import opened Folder
  import opened Plain
  import opened Freshness

  /** `pred/totalOrder[elem, first, next]`, with two fresh variables. */
  function OrderFormula(elem: RelExpr, first: RelExpr, next: RelExpr, e: VarId, p: VarId): Formula {
    And([
      MultTest(TOne, first),
      MultTest(TNo, RBin(JoinOp, next, first)),
      Quant(QAll, e, elem, MultTest(TLone, RBin(JoinOp, Var(e), next))),
      Quant(QAll, p, elem, MultTest(TLone, RBin(JoinOp, next, Var(p)))),
      RelCompare(Subset, elem, RBin(JoinOp, first, RUn(ReflexiveClosure, next)))
    ])
  }

  /** What the five clauses say about the three values. */
  ghost predicate OrderClauses(elem: TupleSet, first: TupleSet, next: TupleSet, univ: nat) {
    && |first| == 1
    && Join(next, first) == {}
    && (forall t | t in elem :: |Join({t}, next)| <= 1)
    && (forall t | t in elem :: |Join(next, {t})| <= 1)
    && elem <= Join(first, TransClosure(next) + IdenSet(univ))
  }

  lemma OrderFormulaMeaning(i: Inst, env: Env, elem: RelExpr, first: RelExpr, next: RelExpr, e: VarId, p: VarId)
    requires BelowRel(next, e, e) && e < p
    ensures Holds(i, env, OrderFormula(elem, first, next, e, p))
            <==> OrderClauses(Value(i, env, elem), Value(i, env, first), Value(i, env, next), i.univ)
  {
    hide Holds, Value, Join, TransClosure, IdenSet, BelowRel;
    BelowRelGrows(next, e, e, p, p);
    AtMostOneEach(i, env, elem, next, e, false);
    AtMostOneEach(i, env, elem, next, p, true);
    OrderTests(i, env, elem, first, next);
    AllFive(i, env, OrderFormula(elem, first, next, e, p).parts);
  }

  lemma AllFive(i: Inst, env: Env, parts: seq<Formula>)
    requires |parts| == 5
    ensures Holds(i, env, And(parts)) <==>
      Holds(i, env, parts[0]) && Holds(i, env, parts[1]) && Holds(i, env, parts[2]) && Holds(i, env, parts[3]) && Holds(i, env, parts[4])
  {
  }

  lemma OrderTests(i: Inst, env: Env, elem: RelExpr, first: RelExpr, next: RelExpr)
    ensures Holds(i, env, MultTest(TOne, first)) <==> |Value(i, env, first)| == 1
    ensures Holds(i, env, MultTest(TNo, RBin(JoinOp, next, first))) <==> Join(Value(i, env, next), Value(i, env, first)) == {}
    ensures Holds(i, env, RelCompare(Subset, elem, RBin(JoinOp, first, RUn(ReflexiveClosure, next))))
            <==> Value(i, env, elem) <= Join(Value(i, env, first), TransClosure(Value(i, env, next)) + IdenSet(i.univ))
  {
    var star := RUn(ReflexiveClosure, next);
    assert Value(i, env, star) == TransClosure(Value(i, env, next)) + IdenSet(i.univ);
    assert Value(i, env, RBin(JoinOp, first, star)) == Join(Value(i, env, first), Value(i, env, star));
  }

  /** `lone e.next` or `lone next.e` for every element. */
  lemma AtMostOneEach(i: Inst, env: Env, elem: RelExpr, next: RelExpr, v: VarId, before: bool)
    requires BelowRel(next, v, v)
    ensures Holds(i, env, Quant(QAll, v, elem, MultTest(TLone, if before then RBin(JoinOp, next, Var(v)) else RBin(JoinOp, Var(v), next))))
            <==> forall t | t in Value(i, env, elem) :: |if before then Join(Value(i, env, next), {t}) else Join({t}, Value(i, env, next))| <= 1
  {
    var n := Value(i, env, next);
    var body := MultTest(TLone, if before then RBin(JoinOp, next, Var(v)) else RBin(JoinOp, Var(v), next));
    forall t
      ensures Holds(i, env[v := t], body) <==> |if before then Join(n, {t}) else Join({t}, n)| <= 1
    {
      RelFrame(i, i, env, env[v := t], next, v, v);
      LoneJoin(i, env[v := t], next, v, t, before);
    }
    AllQuant(i, env, v, elem, body);
  }

  lemma LoneJoin(i: Inst, env: Env, next: RelExpr, v: VarId, t: Tuple, before: bool)
    requires v in env && env[v] == t
    ensures Holds(i, env, MultTest(TLone, if before then RBin(JoinOp, next, Var(v)) else RBin(JoinOp, Var(v), next)))
            <==> |if before then Join(Value(i, env, next), {t}) else Join({t}, Value(i, env, next))| <= 1
  {
    hide Join;
    var r := if before then RBin(JoinOp, next, Var(v)) else RBin(JoinOp, Var(v), next);
    JoinValue(i, env, next, v, t);
    TestedLone(i, env, r);
  }

  lemma JoinValue(i: Inst, env: Env, next: RelExpr, v: VarId, t: Tuple)
    requires v in env && env[v] == t
    ensures Value(i, env, RBin(JoinOp, next, Var(v))) == Join(Value(i, env, next), {t})
    ensures Value(i, env, RBin(JoinOp, Var(v), next)) == Join({t}, Value(i, env, next))
  {
    hide Join;
    assert Value(i, env, Var(v)) == {t};
  }

  lemma TestedLone(i: Inst, env: Env, r: RelExpr)
    ensures Holds(i, env, MultTest(TLone, r)) <==> |Value(i, env, r)| <= 1
  {
    hide Value;
  }

  lemma AllQuant(i: Inst, env: Env, v: VarId, bound: RelExpr, body: Formula)
    ensures Holds(i, env, Quant(QAll, v, bound, body)) ==> forall t | t in Value(i, env, bound) :: Holds(i, env[v := t], body)
    ensures !Holds(i, env, Quant(QAll, v, bound, body)) ==> exists t :: t in Value(i, env, bound) && !Holds(i, env[v := t], body)
  {
    if Holds(i, env, Quant(QAll, v, bound, body)) {
      forall t | t in Value(i, env, bound) ensures Holds(i, env[v := t], body) {}
    } else {
      var t :| t in Value(i, env, bound) && !Holds(i, env[v := t], body);
    }
  }

  // ------------------------------------------------------------------ linear orders

  /** `s` lists the elements once each, `first` is its first, `next` its consecutive pairs. */
  ghost predicate Enumerates(elem: TupleSet, first: TupleSet, next: TupleSet, s: seq<Atom>) {
    && |s| >= 1 && (forall a, b | 0 <= a < b < |s| :: s[a] != s[b])
    && (forall x: Atom :: [x] in elem <==> x in s)
    && first == {[s[0]]}
    && forall x: Atom, y: Atom :: [x, y] in next <==> Consecutive(s, x, y)
  }

  ghost predicate Consecutive(s: seq<Atom>, x: Atom, y: Atom) {
    exists j :: 0 <= j < |s| - 1 && s[j] == x && s[j + 1] == y
  }

  /** The shapes the fields are declared with. */
  ghost predicate OrderShapes(elem: TupleSet, first: TupleSet, next: TupleSet, univ: nat) {
    && HasArity(elem, 1) && elem <= UnivSet(univ)
    && first <= elem
    && HasArity(next, 2) && forall t | t in next :: [t[0]] in elem && [t[1]] in elem
  }

  lemma Successors(next: TupleSet, x: Atom, u: Tuple)
    requires HasArity(next, 2)
    ensures u in Join({[x]}, next) <==> |u| == 1 && [x, u[0]] in next
    ensures u in Join(next, {[x]}) <==> |u| == 1 && [u[0], x] in next
  {
    if u in Join({[x]}, next) {
      var t, v :| t in {[x]} && v in next && Joinable(t, v) && u == JoinTuple(t, v);
      assert v == [x, u[0]];
    }
    if |u| == 1 && [x, u[0]] in next {
      InJoin({[x]}, next, [x], [x, u[0]]);
      assert JoinTuple([x], [x, u[0]]) == u;
    }
    if u in Join(next, {[x]}) {
      var t, v :| t in next && v in {[x]} && Joinable(t, v) && u == JoinTuple(t, v);
      assert t == [u[0], x];
    }
    if |u| == 1 && [u[0], x] in next {
      InJoin(next, {[x]}, [u[0], x], [x]);
      assert JoinTuple([u[0], x], [x]) == u;
    }
  }

  lemma SmallSet(a: TupleSet, t: Tuple, u: Tuple)
    requires |a| <= 1 && t in a && u in a
    ensures t == u
  {
    if t != u {
      assert {t, u} <= a;
      SubsetSize({t, u}, a);
    }
  }

  /** One successor at most, one predecessor at most, none for the first, all reachable: at the level of
      atoms. */
  ghost predicate Chain(elem: TupleSet, a0: Atom, next: TupleSet) {
    && [a0] in elem
    && (forall x: Atom :: [x, a0] !in next)
    && (forall x: Atom, y: Atom, z: Atom :: [x, y] in next && [x, z] in next ==> y == z)
    && (forall x: Atom, y: Atom, z: Atom :: [x, z] in next && [y, z] in next ==> x == y)
    && forall x: Atom :: [x] in elem ==> x == a0 || Linked(next, a0, x)
  }

  lemma Reached(a0: Atom, next: TupleSet, univ: nat, x: Atom)
    requires HasArity(next, 2) && a0 < univ
    ensures [x] in Join({[a0]}, TransClosure(next) + IdenSet(univ)) <==> x == a0 || Linked(next, a0, x)
  {
    var star := TransClosure(next) + IdenSet(univ);
    ClosureArity(next);
    Successors(star, a0, [x]);
    InClosure(next, a0, x);
    if [a0, x] in IdenSet(univ) {
      var j :| 0 <= j < univ && [a0, x] == [j, j];
      assert [a0, x][0] == a0 && [a0, x][1] == x && [j, j][0] == j && [j, j][1] == j;
    }
    if x == a0 { assert [a0, a0] in IdenSet(univ); }
  }

  /** The clauses are the chain conditions. */
  lemma ClausesAreChain(elem: TupleSet, first: TupleSet, next: TupleSet, univ: nat, a0: Atom)
    requires OrderShapes(elem, first, next, univ) && first == {[a0]}
    ensures OrderClauses(elem, first, next, univ) <==> Chain(elem, a0, next)
  {
    assert [a0] in elem && a0 < univ by {
      var j :| 0 <= j < univ && [a0] == [j];
      assert [a0][0] == a0 && [j][0] == j;
    }
    forall x: Atom { Reached(a0, next, univ, x); }
    if OrderClauses(elem, first, next, univ) { ClausesGiveChain(elem, first, next, univ, a0); }
    if Chain(elem, a0, next) { ChainGivesClauses(elem, first, next, univ, a0); }
  }

  lemma ChainGivesClauses(elem: TupleSet, first: TupleSet, next: TupleSet, univ: nat, a0: Atom)
    requires OrderShapes(elem, first, next, univ) && first == {[a0]} && a0 < univ && Chain(elem, a0, next)
    ensures OrderClauses(elem, first, next, univ)
  {
    forall t | t in elem
      ensures |Join({t}, next)| <= 1 && |Join(next, {t})| <= 1
    {
      assert t == [t[0]];
      OneEachWay(elem, next, a0, t[0]);
    }
    assert Join(next, first) == {} by {
      forall u ensures u !in Join(next, first) { Successors(next, a0, u); }
    }
    forall t | t in elem
      ensures t in Join(first, TransClosure(next) + IdenSet(univ))
    {
      assert t == [t[0]];
      Reached(a0, next, univ, t[0]);
    }
  }

  lemma OneEachWay(elem: TupleSet, next: TupleSet, a0: Atom, x: Atom)
    requires HasArity(next, 2) && Chain(elem, a0, next)
    ensures |Join({[x]}, next)| <= 1 && |Join(next, {[x]})| <= 1
  {
    forall u, v | u in Join({[x]}, next) && v in Join({[x]}, next)
      ensures u == v
    {
      Successors(next, x, u);
      Successors(next, x, v);
    }
    AtMostOne(Join({[x]}, next));
    forall u, v | u in Join(next, {[x]}) && v in Join(next, {[x]})
      ensures u == v
    {
      Successors(next, x, u);
      Successors(next, x, v);
    }
    AtMostOne(Join(next, {[x]}));
  }

  lemma AtMostOne(a: TupleSet)
    requires forall u, v | u in a && v in a :: u == v
    ensures |a| <= 1
  {
    if a != {} {
      var u :| u in a;
      assert a == {u};
    }
  }

  lemma ClausesGiveChain(elem: TupleSet, first: TupleSet, next: TupleSet, univ: nat, a0: Atom)
    requires OrderShapes(elem, first, next, univ) && first == {[a0]} && a0 < univ
    requires OrderClauses(elem, first, next, univ)
    ensures Chain(elem, a0, next)
  {
    forall x: Atom ensures [x, a0] !in next { Successors(next, a0, [x]); }
    forall x: Atom, y: Atom, z: Atom | [x, y] in next && [x, z] in next
      ensures y == z
    {
      assert [x] in elem by { assert [x, y][0] == x; }
      Successors(next, x, [y]);
      Successors(next, x, [z]);
      SmallSet(Join({[x]}, next), [y], [z]);
      assert [y][0] == y && [z][0] == z;
    }
    forall x: Atom, y: Atom, z: Atom | [x, z] in next && [y, z] in next
      ensures x == y
    {
      assert [z] in elem by { assert [x, z][1] == z; }
      Successors(next, z, [x]);
      Successors(next, z, [y]);
      SmallSet(Join(next, {[z]}), [x], [y]);
      assert [x][0] == x && [y][0] == y;
    }
    forall x: Atom | [x] in elem ensures x == a0 || Linked(next, a0, x) { Reached(a0, next, univ, x); }
  }

  // ------------------------------------------------------------------ walking the chain

  predicate Step(next: TupleSet, x: Atom, y: Atom) {
    [x, y] in next
  }

  ghost predicate Ended(next: TupleSet, x: Atom) {
    forall y: Atom :: !Step(next, x, y)
  }

  /** A walk from the first element along successors, without repetition. */
  ghost predicate Walk(elem: TupleSet, a0: Atom, next: TupleSet, s: seq<Atom>) {
    && |s| >= 1 && s[0] == a0
    && (forall j | 0 <= j < |s| :: [s[j]] in elem)
    && (forall j | 0 <= j < |s| - 1 :: [s[j], s[j + 1]] in next)
    && forall a, b | 0 <= a < b < |s| :: s[a] != s[b]
  }

  lemma WalkFresh(elem: TupleSet, a0: Atom, next: TupleSet, s: seq<Atom>, x: Atom)
    requires Chain(elem, a0, next) && Walk(elem, a0, next, s) && [s[|s| - 1], x] in next
    ensures x !in s
  {
    forall j | 0 <= j < |s|
      ensures s[j] != x
    {
      if j > 0 { assert [s[j - 1], s[j - 1 + 1]] in next && s[j - 1] != s[|s| - 1]; }
    }
  }

  function AtomsOf(s: seq<Atom>): TupleSet {
    set j | 0 <= j < |s| :: [s[j]]
  }

  lemma {:induction false} WalkSize(s: seq<Atom>)
    requires forall a, b | 0 <= a < b < |s| :: s[a] != s[b]
    ensures |AtomsOf(s)| == |s|
    decreases |s|
  {
    if s == [] {
      assert AtomsOf(s) == {};
    } else {
      var front, last := s[..|s| - 1], s[|s| - 1];
      WalkSize(front);
      forall j | 0 <= j < |front| ensures [front[j]] != [last] { assert [front[j]][0] == s[j] && [last][0] == last; }
      assert AtomsOf(s) == AtomsOf(front) + {[last]};
    }
  }

  /** Following successors from the first element lists every element. */
  lemma WalkAll(elem: TupleSet, a0: Atom, next: TupleSet) returns (s: seq<Atom>)
    requires HasArity(next, 2) && (forall t | t in next :: [t[0]] in elem && [t[1]] in elem)
    requires Chain(elem, a0, next)
    ensures Walk(elem, a0, next, s) && Ended(next, s[|s| - 1])
  {
    s := [a0];
    while !Ended(next, s[|s| - 1])
      invariant Walk(elem, a0, next, s)
      decreases |elem| - |s|
    {
      var x: Atom :| Step(next, s[|s| - 1], x);
      WalkFresh(elem, a0, next, s, x);
      assert [[s[|s| - 1], x][1]] in elem;
      s := s + [x];
      WalkSize(s);
      assert AtomsOf(s) <= elem;
      SubsetSize(AtomsOf(s), elem);
    }
  }

  /** The listed elements are closed under successors, so every reachable element is listed. */
  lemma {:induction false} PathListed(elem: TupleSet, a0: Atom, next: TupleSet, s: seq<Atom>, p: seq<Atom>)
    requires Chain(elem, a0, next) && Walk(elem, a0, next, s) && Ended(next, s[|s| - 1])
    requires |p| >= 1 && p[0] in s && forall j | 0 <= j < |p| - 1 :: [p[j], p[j + 1]] in next
    ensures p[|p| - 1] in s
    decreases |p|
  {
    if |p| > 1 {
      var j :| 0 <= j < |s| && s[j] == p[0];
      assert [p[0], p[0 + 1]] in next && Step(next, s[j], p[1]);
      assert [s[j], s[j + 1]] in next;
      assert p[1] == s[j + 1];
      PathListed(elem, a0, next, s, p[1..]);
    }
  }

  lemma WalkEnumerates(elem: TupleSet, first: TupleSet, next: TupleSet, a0: Atom, s: seq<Atom>)
    requires first == {[a0]} && Chain(elem, a0, next) && Walk(elem, a0, next, s)
    requires Ended(next, s[|s| - 1])
    requires forall t | t in next :: |t| == 2 && [t[0]] in elem
    ensures Enumerates(elem, first, next, s)
  {
    forall x: Atom | [x] in elem
      ensures x in s
    {
      if x != a0 {
        var p :| IsPath(next, p) && p[0] == a0 && p[|p| - 1] == x;
        PathListed(elem, a0, next, s, p);
      }
    }
    forall x: Atom, y: Atom | [x, y] in next
      ensures Consecutive(s, x, y)
    {
      assert [[x, y][0]] in elem;
      var j :| 0 <= j < |s| && s[j] == x;
      assert Step(next, s[j], y);
      assert [s[j], s[j + 1]] in next;
    }
  }

  /** In an enumeration each element has one successor, one predecessor, and the first has none before it. */
  lemma EnumerationSteps(elem: TupleSet, first: TupleSet, next: TupleSet, s: seq<Atom>, x: Atom, y: Atom, z: Atom)
    requires Enumerates(elem, first, next, s)
    ensures [x, s[0]] !in next
    ensures [x, y] in next && [x, z] in next ==> y == z
    ensures [x, z] in next && [y, z] in next ==> x == y
  {
    assert [x, s[0]] in next <==> Consecutive(s, x, s[0]);
    assert [x, y] in next <==> Consecutive(s, x, y);
    assert [x, z] in next <==> Consecutive(s, x, z);
    assert [y, z] in next <==> Consecutive(s, y, z);
  }

  lemma EnumerationReaches(elem: TupleSet, first: TupleSet, next: TupleSet, s: seq<Atom>, x: Atom)
    requires Enumerates(elem, first, next, s) && [x] in elem
    ensures x == s[0] || Linked(next, s[0], x)
  {
    var j :| 0 <= j < |s| && s[j] == x;
    if j > 0 {
      var p := s[..j + 1];
      forall k | 0 <= k < |p| - 1 ensures [p[k], p[k + 1]] in next { assert Consecutive(s, p[k], p[k + 1]); }
      assert IsPath(next, p);
    }
  }

  lemma EnumerationIsChain(elem: TupleSet, first: TupleSet, next: TupleSet, s: seq<Atom>)
    requires Enumerates(elem, first, next, s)
    ensures Chain(elem, s[0], next)
  {
    assert [s[0]] in elem by { assert s[0] in s; }
    hide Enumerates, Linked;
    forall x: Atom, y: Atom, z: Atom
      ensures [x, s[0]] !in next
      ensures [x, y] in next && [x, z] in next ==> y == z
      ensures [x, z] in next && [y, z] in next ==> x == y
    {
      EnumerationSteps(elem, first, next, s, x, y, z);
    }
    forall x: Atom | [x] in elem ensures x == s[0] || Linked(next, s[0], x) {
      EnumerationReaches(elem, first, next, s, x);
    }
  }

  /** The clauses hold exactly when `first` and `next` are a linear order of `elem`. */
  lemma OrderIsLinear(elem: TupleSet, first: TupleSet, next: TupleSet, univ: nat)
    requires OrderShapes(elem, first, next, univ)
    ensures OrderClauses(elem, first, next, univ) <==> exists s :: Enumerates(elem, first, next, s)
  {
    if OrderClauses(elem, first, next, univ) { var s := LinearOrder(elem, first, next, univ); }
    if s :| Enumerates(elem, first, next, s) {
      EnumerationIsChain(elem, first, next, s);
      ClausesAreChain(elem, first, next, univ, s[0]);
    }
  }

  lemma OnlyFirst(elem: TupleSet, first: TupleSet, next: TupleSet, univ: nat) returns (a0: Atom)
    requires OrderShapes(elem, first, next, univ) && |first| == 1
    ensures first == {[a0]}
  {
    var t :| t in first;
    assert |first - {t}| == 0;
    a0 := t[0];
    assert t == [a0];
  }

  lemma LinearOrder(elem: TupleSet, first: TupleSet, next: TupleSet, univ: nat) returns (s: seq<Atom>)
    requires OrderShapes(elem, first, next, univ) && OrderClauses(elem, first, next, univ)
    ensures Enumerates(elem, first, next, s)
  {
    var a0 := OnlyFirst(elem, first, next, univ);
    ClausesAreChain(elem, first, next, univ, a0);
    hide OrderClauses, Enumerates, Chain, Walk, TransClosure, Join, IdenSet, UnivSet;
    s := WalkAll(elem, a0, next);
    WalkEnumerates(elem, first, next, a0, s);
  }

  /** The formula `lower.rs` builds holds exactly for the linear orders of its element sig. */
  lemma TotalOrderExact(i: Inst, env: Env, elem: RelExpr, first: RelExpr, next: RelExpr, e: VarId, p: VarId)
    requires BelowRel(next, e, e) && e < p
    requires OrderShapes(Value(i, env, elem), Value(i, env, first), Value(i, env, next), i.univ)
    ensures Holds(i, env, OrderFormula(elem, first, next, e, p))
            <==> exists s :: Enumerates(Value(i, env, elem), Value(i, env, first), Value(i, env, next), s)
  {
    OrderFormulaMeaning(i, env, elem, first, next, e, p);
    OrderIsLinear(Value(i, env, elem), Value(i, env, first), Value(i, env, next), i.univ);
  }

  // ------------------------------------------------------------------ the installed constants

  function PairsOf(s: seq<Atom>): TupleSet {
    if |s| < 2 then {} else PairsOf(s[..|s| - 1]) + {[s[|s| - 2], s[|s| - 1]]}
  }

  /** `{a0}` and the consecutive pairs of the sig's atoms. */
  method PinOrdering(atoms: seq<Atom>) returns (first: TupleSet, next: TupleSet)
    ensures first == if atoms == [] then {} else {[atoms[0]]}
    ensures next == PairsOf(atoms)
  {
    first := if atoms == [] then {} else {[atoms[0]]};
    next := {};
    var j := 1;
    while j < |atoms|
      invariant 1 <= j && (j <= |atoms| || |atoms| == 0)
      invariant next == if |atoms| == 0 then {} else PairsOf(atoms[..j])
    {
      assert atoms[..j + 1][..j] == atoms[..j];
      next := next + {[atoms[j - 1], atoms[j]]};
      j := j + 1;
    }
    assert |atoms| > 0 ==> atoms[..j] == atoms;
  }

  lemma {:induction false} InPairs(s: seq<Atom>, x: Atom, y: Atom)
    ensures [x, y] in PairsOf(s) <==> Consecutive(s, x, y)
    ensures HasArity(PairsOf(s), 2)
    decreases |s|
  {
    if |s| >= 2 {
      var front, last := s[..|s| - 1], [s[|s| - 2], s[|s| - 1]];
      InPairs(front, x, y);
      assert [x, y] == last <==> x == last[0] && y == last[1] by { assert [x, y][0] == x && [x, y][1] == y; }
      if j :| 0 <= j < |s| - 1 && s[j] == x && s[j + 1] == y {
        if j < |s| - 2 { assert front[j] == x && front[j + 1] == y; }
      }
      if j :| 0 <= j < |front| - 1 && front[j] == x && front[j + 1] == y { assert s[j] == x && s[j + 1] == y; }
    }
  }

  lemma InAtomsOf(s: seq<Atom>, x: Atom)
    ensures [x] in AtomsOf(s) <==> x in s
  {
    if [x] in AtomsOf(s) {
      var j :| 0 <= j < |s| && [s[j]] == [x];
      assert [s[j]][0] == s[j] && [x][0] == x;
    }
  }

  /** They satisfy the clauses whenever the sig has an atom. */
  lemma PinnedIsLinear(atoms: seq<Atom>, univ: nat)
    requires atoms != [] && (forall a, b | 0 <= a < b < |atoms| :: atoms[a] != atoms[b]) && forall a | 0 <= a < |atoms| :: atoms[a] < univ
    ensures OrderClauses(AtomsOf(atoms), {[atoms[0]]}, PairsOf(atoms), univ)
  {
    PinnedEnumerates(atoms);
    PinnedShapes(atoms, univ);
    OrderIsLinear(AtomsOf(atoms), {[atoms[0]]}, PairsOf(atoms), univ);
  }

  lemma PinnedEnumerates(atoms: seq<Atom>)
    requires atoms != [] && forall a, b | 0 <= a < b < |atoms| :: atoms[a] != atoms[b]
    ensures Enumerates(AtomsOf(atoms), {[atoms[0]]}, PairsOf(atoms), atoms)
  {
    forall x: Atom { InAtomsOf(atoms, x); }
    forall x: Atom, y: Atom { InPairs(atoms, x, y); }
  }

  lemma PinnedShapes(atoms: seq<Atom>, univ: nat)
    requires atoms != [] && forall a | 0 <= a < |atoms| :: atoms[a] < univ
    ensures OrderShapes(AtomsOf(atoms), {[atoms[0]]}, PairsOf(atoms), univ)
  {
    var next := PairsOf(atoms);
    InPairs(atoms, 0, 0);
    forall t | t in next
      ensures [t[0]] in AtomsOf(atoms) && [t[1]] in AtomsOf(atoms)
    {
      assert t == [t[0], t[1]];
      InPairs(atoms, t[0], t[1]);
      InAtomsOf(atoms, t[0]);
      InAtomsOf(atoms, t[1]);
    }
  }
}
