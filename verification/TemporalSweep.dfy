/** The verdict sweep over trace lengths (crates/als-core/src/temporal_solve.rs). */
module TemporalSweep {
  import opened Sat
  import opened LassoMachinery
  import opened TraceKey
  import opened Decoding
  import opened Traces
  import opened TraceEnumeration
  import opened Unrolling
  import opened TemporalProblem
  import opened Wrappers

  datatype Verdict = FirstTrace(trace: Trace) | NoTrace | Unknown(k: nat) | OverCap(k: nat, primaries: nat)

  ghost predicate Unsolvable(p: Problem, k: nat) {
    Models(p.enc(k).n, p.enc(k).base) == {}
  }

  ghost predicate UnsolvableBelow(p: Problem, k: nat) {
    forall j: nat | p.min <= j < k :: Unsolvable(p, j)
  }

  ghost predicate Solves(p: Problem, t: Trace) {
    var e := p.enc(|t.lasso.states|);
    exists m :: m in Models(e.n, e.base) && t == TraceAt(p.rels, e, m)
  }

  /** The least satisfiable length's trace; unsatisfiable only when the whole range was searched, never past
      a length that gave up. */
  method SolveTemporalCommand(p: Problem, budgeted: bool) returns (v: Verdict)
    requires GoodProblem(p)
    ensures match v
      case FirstTrace(t) => Valid(t.lasso) && p.min <= |t.lasso.states| <= p.max && Solves(p, t) && UnsolvableBelow(p, |t.lasso.states|)
      case NoTrace => UnsolvableBelow(p, p.max + 1)
      case Unknown(k) => budgeted && p.min <= k <= p.max && UnsolvableBelow(p, k)
      case OverCap(k, primaries) => p.cap.Some? && primaries > p.cap.value && p.min <= k <= p.max && UnsolvableBelow(p, k)
  {
    hide GoodProblem, GoodEnc, TraceAt, Models;
    assert 1 <= p.min <= p.max by { Range(p); }
    var k := p.min;
    while k <= p.max
      invariant p.min <= k <= p.max + 1 && UnsolvableBelow(p, k)
    {
      if p.cap.Some? && PrimaryCount(p.rels, k) > p.cap.value {
        return OverCap(k, PrimaryCount(p.rels, k));
      }
      var e := p.enc(k);
      var solver := new LiveSolver(e.n, e.base);
      var outcome;
      if budgeted {
        var within := solver.SolveWithin();
        if within.None? { return Unknown(k); }
        outcome := within.value;
      } else {
        outcome := solver.Solve();
      }
      if outcome.IsSat? {
        var t := SolvedTrace(p, k, outcome.model);
        return FirstTrace(t);
      }
      k := k + 1;
    }
    v := NoTrace;
  }

  lemma Range(p: Problem)
    requires GoodProblem(p)
    ensures 1 <= p.min <= p.max
  {
  }

  method SolvedTrace(p: Problem, k: nat, m: Assignment) returns (t: Trace)
    requires GoodProblem(p) && p.min <= k && m in Models(p.enc(k).n, p.enc(k).base)
    ensures Valid(t.lasso) && |t.lasso.states| == k && Solves(p, t)
  {
    var e := p.enc(k);
    EncShape(p, k);
    LassoValid(p.rels, e, m);
    var flat := DecodeLoop(e.layout, m);
    var loop := RecoverLoopState(m, e.next, e.k);
    var config := ReadConfig(p.rels, flat);
    var states := ReadStates(p.rels, e.k, flat);
    t := Trace(config, Lasso(states, loop));
    assert t == TraceAt(p.rels, e, m);
  }

  // ------------------------------------------------------------------ the goal

  /** The assignment picks one loop target and satisfies the goal's clauses at this length. */
  ghost predicate MeetsGoal(rels: Model, g: TemporalGoal, k: nat, m: Assignment) {
    var e := Encode(rels, k, g);
    |m| == e.n && ExactlyOne(m, e.next, k) && Satisfies(m, g.clauses)
  }

  /** The trace is one of an assignment that meets the goal at the trace's length. */
  ghost predicate ShowsGoal(rels: Model, goal: nat -> TemporalGoal, t: Trace) {
    var k := |t.lasso.states|;
    exists m :: MeetsGoal(rels, goal(k), k, m) && t == TraceAt(rels, Encode(rels, k, goal(k)), m)
  }

  ghost predicate Unmet(rels: Model, g: TemporalGoal, k: nat) {
    forall m :: !MeetsGoal(rels, g, k, m)
  }

  ghost predicate NeverMet(rels: Model, goal: nat -> TemporalGoal, min: nat, k: nat) {
    forall j: nat | min <= j < k :: Unmet(rels, goal(j), j)
  }

  lemma SolvesGoal(rels: Model, goal: nat -> TemporalGoal, min: nat, max: nat, cap: Option<nat>, t: Trace)
    ensures Solves(ProblemOf(rels, goal, min, max, cap), t) <==> ShowsGoal(rels, goal, t)
  {
    var k := |t.lasso.states|;
    forall m { EncodeAsks(rels, k, goal(k), m); }
  }

  lemma UnsolvableAt(rels: Model, goal: nat -> TemporalGoal, min: nat, max: nat, cap: Option<nat>, k: nat)
    ensures Unsolvable(ProblemOf(rels, goal, min, max, cap), k) <==> Unmet(rels, goal(k), k)
  {
    hide MeetsGoal, Encode, Models;
    var e := Encode(rels, k, goal(k));
    forall m
      ensures m in Models(e.n, e.base) <==> MeetsGoal(rels, goal(k), k, m)
    {
      MetAt(rels, k, goal(k), m);
    }
  }

  lemma MetAt(rels: Model, k: nat, g: TemporalGoal, m: Assignment)
    ensures var e := Encode(rels, k, g); m in Models(e.n, e.base) <==> MeetsGoal(rels, g, k, m)
  {
    EncodeAsks(rels, k, g, m);
  }

  lemma UnsolvableGoal(rels: Model, goal: nat -> TemporalGoal, min: nat, max: nat, cap: Option<nat>, k: nat)
    ensures UnsolvableBelow(ProblemOf(rels, goal, min, max, cap), k) <==> NeverMet(rels, goal, min, k)
  {
    hide Unsolvable, Unmet;
    var p := ProblemOf(rels, goal, min, max, cap);
    forall j: nat ensures Unsolvable(p, j) <==> Unmet(rels, goal(j), j) { UnsolvableAt(rels, goal, min, max, cap, j); }
  }

  /** Whatever the explorer shows meets its length's goal, and it may show whatever does. */
  lemma AllowedMeets(rels: Model, goal: nat -> TemporalGoal, min: nat, max: nat, cap: Option<nat>, k: nat, m: Assignment)
    ensures Allowed(ProblemOf(rels, goal, min, max, cap), k, None, [], None, m) <==> MeetsGoal(rels, goal(k), k, m)
  {
    EncodeAsks(rels, k, goal(k), m);
  }

  /** The verdict on a command: a least-length trace that meets the goal, or none of any length in the range. */
  method SolveCommand(rels: Model, goal: nat -> TemporalGoal, min: nat, max: nat, cap: Option<nat>, budgeted: bool) returns (v: Verdict)
    requires GoodModel(rels) && 1 <= min <= max && forall k: nat :: GoodGoal(goal(k))
    ensures match v
      case FirstTrace(t) => Valid(t.lasso) && min <= |t.lasso.states| <= max && ShowsGoal(rels, goal, t) && NeverMet(rels, goal, min, |t.lasso.states|)
      case NoTrace => NeverMet(rels, goal, min, max + 1)
      case Unknown(k) => budgeted && min <= k <= max && NeverMet(rels, goal, min, k)
      case OverCap(k, primaries) => cap.Some? && primaries > cap.value && min <= k <= max && NeverMet(rels, goal, min, k)
  {
    hide Solves, ShowsGoal, UnsolvableBelow, NeverMet, GoodProblem;
    ProblemOfGood(rels, goal, min, max, cap);
    v := SolveTemporalCommand(ProblemOf(rels, goal, min, max, cap), budgeted);
    match v
    case FirstTrace(t) =>
      SolvesGoal(rels, goal, min, max, cap, t);
      UnsolvableGoal(rels, goal, min, max, cap, |t.lasso.states|);
    case NoTrace => UnsolvableGoal(rels, goal, min, max, cap, max + 1);
    case Unknown(k) => UnsolvableGoal(rels, goal, min, max, cap, k);
    case OverCap(k, _) => UnsolvableGoal(rels, goal, min, max, cap, k);
  }
}
