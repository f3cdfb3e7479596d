/** Instance enumeration (crates/als-core/src/solve.rs): solve, decode, block the projection, repeat. */
module Enumeration {
  import opened Wrappers
  import opened Sat
  import opened Decoding

  function AllFalse(n: nat): Assignment {
    seq(n, v requires 0 <= v < n => false)
  }

  /** The answer given before the solver is asked puts every relation at its lower bound, and has no other
      relation. */
  lemma TrivialIsLower(bounds: Bounds)
    requires GoodBounds(bounds)
    ensures AtLower(bounds, Decode(Layout(bounds, 0).0, AllFalse(Layout(bounds, 0).1)))
  {
    var (layout, next) := Layout(bounds, 0);
    var m := AllFalse(next);
    DecodeInside(bounds, 0, m);
    forall j: nat | j < |bounds| ensures bounds[j].0 in Decode(layout, m) && Decode(layout, m)[bounds[j].0] == bounds[j].1.lower {
      TrivialDecode(bounds, 0, m, j);
    }
  }

  ghost predicate AtLower(bounds: Bounds, inst: Instance) {
    && Inside(bounds, inst)
    && forall j: nat | j < |bounds| :: bounds[j].0 in inst && inst[bounds[j].0] == bounds[j].1.lower
  }

  /** The first `next` variables are exactly what decoding observes. */
  ghost predicate Projects(layout: seq<RelDecode>, next: nat) {
    forall m: Assignment, m': Assignment {:trigger Decode(layout, m), Decode(layout, m')} ::
      |m| == |m'| && next <= |m| ==> (SameOn(m, m', Consecutive(0, next)) <==> Decode(layout, m) == Decode(layout, m'))
  }

  lemma LayoutProjects(bounds: Bounds)
    requires GoodBounds(bounds)
    ensures Projects(Layout(bounds, 0).0, Layout(bounds, 0).1)
  {
    var (layout, next) := Layout(bounds, 0);
    forall m: Assignment, m': Assignment | |m| == |m'| && next <= |m|
      ensures SameOn(m, m', Consecutive(0, next)) <==> Decode(layout, m) == Decode(layout, m')
    {
      DecodeInjective(bounds, 0, m, m');
      SameOnValues(m, m', next);
    }
  }

  lemma SameOnValues(m: Assignment, m': Assignment, next: nat)
    requires |m| == |m'| && next <= |m|
    ensures SameOn(m, m', Consecutive(0, next)) <==> SameValues(m, m', 0, next)
  {
    var vars := Consecutive(0, next);
    if SameOn(m, m', vars) {
      forall v: SatVar | v < next ensures Value(m, v) == Value(m', v) { assert vars[v] == v; }
    }
    if SameValues(m, m', 0, next) {
      forall j | 0 <= j < |vars| ensures m[vars[j]] == m'[vars[j]] { assert Value(m, vars[j]) == Value(m', vars[j]); }
    }
  }

  /** The instances whose projection extends to a model of the CNF, and the trivial one when the goal
      folded to true. */
  ghost function GoalOf(layout: seq<RelDecode>, n: nat, cnf: seq<Clause>, first: Option<Instance>): set<Instance> {
    (set m | m in Models(n, cnf) :: Decode(layout, m)) + if first.Some? then {first.value} else {}
  }

  /** With no clauses at all, the goal is every instance inside the bounds: allocation and decoding are a
      bijection between primary assignments and instances. */
  lemma UnconstrainedGoal(bounds: Bounds, inst: Instance)
    requires GoodBounds(bounds)
    ensures inst in GoalOf(Layout(bounds, 0).0, Layout(bounds, 0).1, [], None) <==> Inside(bounds, inst)
  {
    var (layout, next) := Layout(bounds, 0);
    if inst in GoalOf(layout, next, [], None) {
      var m :| m in Models(next, []) && inst == Decode(layout, m);
      DecodeInside(bounds, 0, m);
    }
    if Inside(bounds, inst) {
      var m := DecodeOnto(bounds, 0, inst, next);
      assert m in Models(next, []);
    }
  }

  /** The solver admits exactly the models of the original CNF whose instance is still to come. */
  ghost predicate LeftOver(layout: seq<RelDecode>, n: nat, cs: seq<Clause>, cnf: seq<Clause>, yielded: seq<Instance>) {
    forall m {:trigger m in Models(n, cs)} ::
      m in Models(n, cs) <==> m in Models(n, cnf) && Decode(layout, m) !in yielded
  }

  lemma BlockedLeftOver(layout: seq<RelDecode>, next: nat, n: nat, cs: seq<Clause>, cnf: seq<Clause>, yielded: seq<Instance>, m: Assignment)
    requires Projects(layout, next) && next <= n && |m| == n && LeftOver(layout, n, cs, cnf, yielded)
    ensures LeftOver(layout, n, cs + [Block(m, Consecutive(0, next))], cnf, yielded + [Decode(layout, m)])
  {
    var clause := Block(m, Consecutive(0, next));
    forall m'
      ensures m' in Models(n, cs + [clause]) <==> m' in Models(n, cnf) && Decode(layout, m') !in yielded + [Decode(layout, m)]
    {
      SatisfiesAdd(m', cs, clause);
      assert m' in Models(n, cs) <==> m' in Models(n, cnf) && Decode(layout, m') !in yielded;
      if |m'| == n {
        BlockExcludes(m, m', Consecutive(0, next));
        assert SameOn(m, m', Consecutive(0, next)) <==> Decode(layout, m) == Decode(layout, m');
      }
    }
  }

  ghost predicate Listed(yielded: seq<Instance>, goal: set<Instance>) {
    && (forall a, b | 0 <= a < b < |yielded| :: yielded[a] != yielded[b])
    && forall a | 0 <= a < |yielded| :: yielded[a] in goal
  }

  /** A model the solver still admits decodes to a goal instance not seen before. */
  lemma AdmittedNext(layout: seq<RelDecode>, n: nat, cs: seq<Clause>, cnf: seq<Clause>, first: Option<Instance>, yielded: seq<Instance>, m: Assignment)
    requires LeftOver(layout, n, cs, cnf, yielded) && m in Models(n, cs)
    requires Listed(yielded, GoalOf(layout, n, cnf, first))
    ensures var inst := Decode(layout, m);
      inst !in yielded && inst in GoalOf(layout, n, cnf, first) && Listed(yielded + [inst], GoalOf(layout, n, cnf, first))
  {
    assert m in Models(n, cnf);
  }

  /** A problem without primary variables has one instance besides the trivial one. */
  lemma OnlyInstance(layout: seq<RelDecode>, n: nat, cnf: seq<Clause>, first: Option<Instance>, yielded: seq<Instance>, m: Assignment)
    requires Projects(layout, 0) && m in Models(n, cnf) && (first.Some? ==> first.value in yielded)
    ensures forall inst | inst in GoalOf(layout, n, cnf, first) :: inst in yielded + [Decode(layout, m)]
  {
    forall m' | m' in Models(n, cnf)
      ensures Decode(layout, m') == Decode(layout, m)
    {
      assert SameOn(m, m', Consecutive(0, 0));
    }
  }

  /** When the solver admits nothing, every goal instance has been seen. */
  lemma AllYielded(layout: seq<RelDecode>, n: nat, cs: seq<Clause>, cnf: seq<Clause>, first: Option<Instance>, yielded: seq<Instance>)
    requires LeftOver(layout, n, cs, cnf, yielded) && Models(n, cs) == {} && (first.Some? ==> first.value in yielded)
    ensures forall inst | inst in GoalOf(layout, n, cnf, first) :: inst in yielded
  {
    forall m | m in Models(n, cnf)
      ensures Decode(layout, m) in yielded
    {
      assert m !in Models(n, cs);
    }
  }

  /** A finite set holds no longer a sequence without repetition than its size. */
  lemma {:induction false} DistinctWithin<T>(s: seq<T>, a: set<T>)
    requires forall x, y | 0 <= x < y < |s| :: s[x] != s[y]
    requires forall x | 0 <= x < |s| :: s[x] in a
    ensures |s| <= |a|
    decreases |s|
  {
    if s != [] {
      var last := s[|s| - 1];
      DistinctWithin(s[..|s| - 1], a - {last});
    }
  }

  class InstanceEnumerator {
    ghost const residual: seq<Clause>
    ghost const trivial: bool
    const layout: seq<RelDecode>
    const primary: seq<SatVar>
    const solver: LiveSolver
    var done: bool
    var pendingTrivial: bool
    var budget: Option<nat>
    var exhausted: bool
    ghost var yielded: seq<Instance>

    /** The instance owed before the solver is asked: every relation at its lower bound. */
    ghost function FirstAnswer(): Option<Instance> {
      if trivial then Some(Decode(layout, AllFalse(|primary|))) else None
    }

    ghost function Goal(): set<Instance> {
      GoalOf(layout, solver.numVars, residual, FirstAnswer())
    }

    ghost predicate Valid()
      reads this, solver
    {
      && Projects(layout, |primary|) && primary == Consecutive(0, |primary|) && |primary| <= solver.numVars
      && (trivial ==> forall m | m in Models(solver.numVars, residual) :: Decode(layout, m) != FirstAnswer().value)
      && Listed(yielded, Goal())
      && (pendingTrivial ==> trivial && yielded == [] && !done)
      && (trivial && !pendingTrivial ==> FirstAnswer().value in yielded)
      && (exhausted ==> done && budget.Some?)
      && (!done ==> LeftOver(layout, solver.numVars, solver.clauses, residual, yielded))
      && (done && !exhausted ==> forall inst | inst in Goal() :: inst in yielded)
    }

    constructor (b: Bounds, cnf: seq<Clause>, aux: nat, triviallySat: bool, effort: Option<nat>)
      requires GoodBounds(b)
      requires triviallySat ==> forall m | m in Models(Layout(b, 0).1 + aux, cnf) ::
        Decode(Layout(b, 0).0, m) != Decode(Layout(b, 0).0, AllFalse(Layout(b, 0).1))
      ensures Valid() && fresh(solver) && yielded == [] && !done && !exhausted && budget == effort
      ensures layout == Layout(b, 0).0 && |primary| == Layout(b, 0).1 && solver.numVars == |primary| + aux
      ensures residual == cnf && trivial == triviallySat
      ensures triviallySat ==> FirstAnswer().Some? && AtLower(b, FirstAnswer().value)
    {
      LayoutProjects(b);
      TrivialIsLower(b);
      var (lay, next) := Layout(b, 0);
      residual, trivial := cnf, triviallySat;
      layout, primary := lay, Consecutive(0, next);
      solver := new LiveSolver(next + aux, cnf);
      done, pendingTrivial, budget, exhausted := false, triviallySat, effort, false;
      yielded := [];
    }

    /** Never more answers than goal instances, so the sequence of calls reaches its end. */
    lemma YieldedBounded()
      requires Valid()
      ensures |yielded| <= |Goal()|
    {
      DistinctWithin(yielded, Goal());
    }

    /** The next instance; `None` once the space is exhausted or the budget is. */
    method Next() returns (r: Option<Instance>)
      requires Valid()
      modifies this, solver
      ensures Valid()
      ensures r.Some? ==> yielded == old(yielded) + [r.value] && r.value in Goal() && r.value !in old(yielded)
      ensures r.Some? && trivial && old(yielded) == [] ==> r == FirstAnswer()
      ensures r.None? ==> yielded == old(yielded) && done
      ensures r.None? && !exhausted ==> forall inst :: inst in Goal() <==> inst in yielded
      ensures exhausted ==> r.None? || old(exhausted)
      ensures old(budget).None? ==> budget.None? && !exhausted
      ensures old(done) ==> r.None? && exhausted == old(exhausted)
    {
      if done {
        return None;
      }
      if pendingTrivial {
        pendingTrivial := false;
        var inst := DecodeLoop(layout, AllFalse(|primary|));
        yielded := yielded + [inst];
        return Some(inst);
      }
      var outcome := SolveCharged();
      if outcome.None? {
        exhausted, done := true, true;
        return None;
      }
      match outcome.value {
        case IsUnsat =>
          AllYielded(layout, solver.numVars, solver.clauses, residual, FirstAnswer(), yielded);
          done := true;
          return None;
        case IsSat(m) =>
          var inst := Yield(m);
          return Some(inst);
      }
    }

    /** One solve, charged against the budget if there is one. */
    method SolveCharged() returns (r: Option<Outcome>)
      modifies `budget
      ensures r.None? ==> old(budget).Some?
      ensures old(budget).None? <==> budget.None?
      ensures r.Some? ==> match r.value { case IsSat(m) => m in solver.Admitted() case IsUnsat => solver.Admitted() == {} }
    {
      if budget.None? {
        var outcome := solver.Solve();
        return Some(outcome);
      }
      if budget.value == 0 { return None; }
      r := solver.SolveWithin();
      if r.Some? {
        var spent: nat := *;
        budget := Some(if spent <= budget.value then budget.value - spent else 0);
      }
    }

    /** Decodes a model and blocks its projection. */
    method Yield(m: Assignment) returns (inst: Instance)
      requires Valid() && !done && !pendingTrivial && m in solver.Admitted()
      modifies this, solver
      ensures Valid() && yielded == old(yielded) + [inst] && inst in Goal() && inst !in old(yielded)
      ensures budget == old(budget) && exhausted == old(exhausted)
    {
      inst := DecodeLoop(layout, m);
      AdmittedNext(layout, solver.numVars, solver.clauses, residual, FirstAnswer(), yielded, m);
      var clause := Block(m, primary);
      if |clause| == 0 {
        OnlyInstance(layout, solver.numVars, residual, FirstAnswer(), yielded, m);
        done := true;
      } else {
        BlockedLeftOver(layout, |primary|, solver.numVars, solver.clauses, residual, yielded, m);
        solver.AddClause(clause);
      }
      yielded := yielded + [inst];
    }
  }
}
