/** A fork that can change nothing drops the live length with traces of it still unshown
    (crates/als-core/src/temporal_enum.rs): what is lost, at one input. */
module VacuousFork {
  import opened Wrappers
  import opened Algebra
  import opened Folder
  import opened Sat
  import opened Decoding
  import opened LassoMachinery
  import opened TraceKey
  import opened Unrolling
  import opened Traces
  import opened TraceEnumeration
  import opened TemporalProblem

  /** One variable relation that is always empty. */
  function Frozen(): Model {
    [ModelRel(0, RelBound({}, {}), true)]
  }

  /** A goal that no trace of one state meets and every longer one does. */
  function AtLeastTwo(k: nat): TemporalGoal {
    TemporalGoal([], if k == 1 then [[]] else [], 0)
  }

  function Command(): Problem {
    ProblemOf(Frozen(), AtLeastTwo, 1, 2, None)
  }

  lemma CommandGood()
    ensures GoodModel(Frozen()) && GoodProblem(Command()) && !HasFreeVariable(Frozen())
    ensures Command().rels == Frozen() && Command().min == 1 && Command().max == 2 && Command().cap.None?
  {
    ProblemOfGood(Frozen(), AtLeastTwo, 1, 2, None);
  }

  lemma NothingShort()
    ensures Models(Command().enc(1).n, Command().enc(1).base) == {}
  {
    var e := Command().enc(1);
    forall m ensures m !in Models(e.n, e.base) {
      EncodeAsks(Frozen(), 1, AtLeastTwo(1), m);
      assert AtLeastTwo(1).clauses[0] == [] && !ClauseHolds(m, []);
    }
  }

  /** The two loop targets of the two-state trace. */
  lemma TwoSolutions() returns (m: Assignment, m': Assignment)
    ensures var e := Command().enc(2);
      && m in Models(e.n, e.base) && m' in Models(e.n, e.base)
      && LoopOf(m, e.next, 2) == 0 && LoopOf(m', e.next, 2) == 1
  {
    var s: State := map[0 := {}];
    var states := [s, s];
    CommandGood();
    assert AtLeastTwo(2) == Unconstrained();
    m := FreeSolutions(Frozen(), states, 0);
    m' := FreeSolutions(Frozen(), states, 1);
  }

  /** Every state of every trace is the same, and so is every infinite trace. */
  lemma OneTrace(t: Trace, u: Trace)
    requires Displayable(Command(), t) && Displayable(Command(), u)
    ensures KeyOf(t.lasso) == KeyOf(u.lasso)
  {
    forall state | VarState(Frozen(), state)
      ensures state == map[0 := {}]
    {
      assert Frozen()[0] in Frozen();
      forall id | id in state
        ensures id == 0
      {
        assert HasRel(Frozen(), id, true);
        var r :| r in Frozen() && r.id == id;
      }
      var r := Frozen()[0];
      assert r.variable && r.id in state && state[r.id] <= {};
      assert state[0] == {} && forall id :: id in state <==> id == 0;
    }
    KeyCanonical(t.lasso, u.lasso);
  }

  lemma Askable(m: Assignment, config: State)
    requires m in Models(Command().enc(2).n, Command().enc(2).base) && config == map[]
    ensures Allowed(Command(), 2, None, [], None, m) && Allowed(Command(), 2, Some(config), [], None, m)
  {
    var flat := Decode(Command().enc(2).layout, m);
    assert Frozen()[..0] == [];
    assert StaticPart(Frozen(), flat) == StaticPart(Frozen()[..0], flat) == map[];
  }

  lemma NoConfig(k: nat, config: Option<State>, hold: Option<Hold>, t: Trace)
    requires Answers(Command(), k, config, [], hold, t)
    ensures t.config == map[] && k != 1
  {
    NothingShort();
    var m :| Allowed(Command(), k, config, [], hold, m) && t == TraceAt(Frozen(), Command().enc(k), m);
    var flat := Decode(Command().enc(k).layout, m);
    assert Frozen()[..0] == [];
    assert StaticPart(Frozen(), flat) == StaticPart(Frozen()[..0], flat) == map[];
  }

  /** One emission accounts for at most one loop target. */
  lemma OneLoop(x: Emission, m: Assignment, m': Assignment)
    requires x.k == 2 && Accounts(Command(), 2, m, false, x) && Accounts(Command(), 2, m', false, x)
    requires |m| == |m'| == Command().enc(2).n
    ensures LoopOf(m, Command().enc(2).next, 2) == LoopOf(m', Command().enc(2).next, 2)
  {
    var e := Command().enc(2);
    CommandGood();
    hide KeyAt;
    assert e.k == 2 && SolutionVars(Command(), 2) == Consecutive(0, e.next + e.k);
    assert SameOn(m, m', Consecutive(0, e.next + e.k));
    SameShown(Frozen(), e, m, m');
  }

  lemma NotBothTold(history: seq<Emission>) returns (m: Assignment)
    requires |history| <= 1 && forall x | x in history :: x.k == 2
    ensures Allowed(Command(), 2, None, [], None, m) && Allowed(Command(), 2, Some(map[]), [], None, m) && !Told(Command(), 2, history, false, m)
  {
    hide Accounts;
    var a, b := TwoSolutions();
    Askable(a, map[]);
    Askable(b, map[]);
    m := a;
    if Told(Command(), 2, history, false, a) {
      if Told(Command(), 2, history, false, b) {
        var x :| x in history && Accounts(Command(), 2, a, false, x);
        var y :| y in history && Accounts(Command(), 2, b, false, y);
        OneLoop(x, a, b);
      }
      m := b;
    }
  }

  /** The explorer after its first trace. */
  ghost predicate AfterFirst(e: TraceEnumerator)
    reads e, e.Footprint()
  {
    && e.Valid() && e.problem == Command() && e.budget.None? && !e.budgetSpent && !e.interrupted && !e.restricted
    && e.blockedConfigs == [] && e.config == Some(map[]) && e.hold.None? && e.current.Some? && Displayable(Command(), e.current.value)
    && |e.history| == 1 && e.history[0].k == 2 && e.history[0].key == KeyOf(e.current.value.lasso)
  }

  method First() returns (e: TraceEnumerator, r: Advance)
    ensures fresh(e) && fresh(e.Footprint()) && AfterFirst(e) && r.Shown?
  {
    hide Told, Answers, Displayable, Covered, GoodProblem, Allowed, Command, Frozen, Sound, Recorded, GoodEnc;
    hide KeysOf, NoRepeats, LengthsIn, ShorterIn, CoveredBelow, ConfigFor, HasFreeStatic, KeyOf, Models, VarState;
    hide EmittedBelow, EmittedAt, HistoryOk, HasFreeVariable, PrimaryCount, TraceAt, NoFork, Forks;
    CommandGood();
    e := new TraceEnumerator(Command(), None);
    r := e.NextPathStep();
    if r.Exhausted? {
      var m := NotBothTold([]);
      CoveredAt(e.history, m, None);
    }
    NoConfig(e.stage.value.k, None, e.hold, r.trace);
  }

  lemma HasStates(t: Trace)
    requires Displayable(Command(), t)
    ensures |t.lasso.states| > 0
  {
  }

  lemma ShownKey(history: seq<Emission>, keys: set<Key>)
    requires |history| == 1 && KeysOf(history, keys)
    ensures history[0].key in keys
  {
    assert history[0] in history;
  }

  lemma CoveredAt(history: seq<Emission>, m: Assignment, config: Option<State>)
    requires CoveredBelow(Command(), 3, config, [], history, false) && Allowed(Command(), 2, config, [], None, m)
    ensures Told(Command(), 2, history, false, m)
  {
    assert Covered(Command(), 2, config, [], None, history, false);
  }

  /** Asked again the explorer shows a second trace; after a fork that nothing can answer it shows no other. */
  method ForkHides() returns (next: Advance, fork: Advance, after: Advance)
    ensures next.Shown? && fork.Exhausted? && after.Exhausted?
  {
    hide Told, Answers, Displayable, Covered, GoodProblem, Allowed, Command, Frozen, Sound, Recorded, GoodEnc;
    hide KeysOf, NoRepeats, LengthsIn, ShorterIn, CoveredBelow, ConfigFor, HasFreeStatic, KeyOf, Models, VarState;
    hide EmittedBelow, EmittedAt, HistoryOk, HasFreeVariable, PrimaryCount, TraceAt, NoFork, Forks;
    CommandGood();
    var e, first := First();
    ghost var history := e.history;
    next := e.NextPathStep();
    if next.Exhausted? {
      var m := NotBothTold(history);
      CoveredAt(history, m, Some(map[]));
    }
    e, first := First();
    ghost var t := e.current.value;
    ShownKey(e.history, e.emitted + e.emittedHere);
    HasStates(t);
    fork := e.ForkStep(0);
    after := e.NextPathStep();
    if after.Shown? {
      NoConfig(e.stage.value.k, Some(map[]), e.hold, after.trace);
      OneTrace(t, after.trace);
    }
  }
}
