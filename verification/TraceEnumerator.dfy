/** The trace explorer over a live solver (crates/als-core/src/temporal_enum.rs). */
module TraceEnumeration {
  import opened Wrappers
  import opened Algebra
  import opened Folder
  import opened Sat
  import opened Decoding
  import opened LassoMachinery
  import opened TraceKey
  import opened Unrolling
  import opened Traces

  /** A fork's question: states before `upto` as in `base`, state `upto` different. */
  datatype Hold = Hold(base: Lasso, upto: nat)

  ghost predicate Forks(l: Lasso, h: Hold) {
    && |l.states| == |h.base.states| && h.upto < |l.states|
    && (forall j | 0 <= j < h.upto :: l.states[j] == h.base.states[j])
    && l.states[h.upto] != h.base.states[h.upto]
  }

  /** The solutions of length `k` that the current question asks for. */
  ghost predicate Allowed(p: Problem, k: nat, config: Option<State>, blocked: seq<State>, hold: Option<Hold>, m: Assignment) {
    var e := p.enc(k);
    && m in Models(e.n, e.base)
    && (config.Some? ==> ConfigAt(p.rels, e, m) == config.value)
    && ConfigAt(p.rels, e, m) !in blocked
    && (hold.Some? ==> Forks(LassoAt(p.rels, e, m), hold.value))
  }

  ghost function KeyAt(p: Problem, k: nat, m: Assignment): Key {
    var l := LassoAt(p.rels, p.enc(k), m);
    if Valid(l) then KeyOf(l) else Key(0, 0, [])
  }

  /** Whatever the solver admits answers the question. */
  ghost predicate Sound(p: Problem, k: nat, cs: seq<Clause>, config: Option<State>, blocked: seq<State>, hold: Option<Hold>) {
    forall m {:trigger m in Models(p.enc(k).n, cs)} :: m in Models(p.enc(k).n, cs) ==> Allowed(p, k, config, blocked, hold, m)
  }

  /** The variables that tell two solutions of one length apart: the primaries and the loop target. */
  function SolutionVars(p: Problem, k: nat): seq<SatVar> {
    Consecutive(0, p.enc(k).next + k)
  }

  /** One shown trace of the sweep: its length, the key of its infinite trace and its solution. */
  datatype Emission = Emission(k: nat, key: Key, model: Assignment)

  /** This emission accounts for the solution: it is the same solution, or the same infinite trace at a
      shorter length; once a length was interrupted, the same infinite trace at any length. */
  ghost predicate Accounts(p: Problem, k: nat, m: Assignment, interrupted: bool, x: Emission) {
    && x.key == KeyAt(p, k, m)
    && (interrupted || x.k < k || (x.k == k && SameOn(x.model, m, SolutionVars(p, k))))
  }

  ghost predicate Told(p: Problem, k: nat, history: seq<Emission>, interrupted: bool, m: Assignment) {
    exists x :: x in history && Accounts(p, k, m, interrupted, x)
  }

  /** Every answer the solver no longer admits is accounted for. */
  ghost predicate Recorded(p: Problem, k: nat, cs: seq<Clause>, config: Option<State>, blocked: seq<State>, hold: Option<Hold>,
                           history: seq<Emission>, interrupted: bool)
  {
    forall m {:trigger Allowed(p, k, config, blocked, hold, m)} ::
      Allowed(p, k, config, blocked, hold, m) && m !in Models(p.enc(k).n, cs) ==> Told(p, k, history, interrupted, m)
  }

  /** Every answer of this length is accounted for. */
  ghost predicate Covered(p: Problem, k: nat, config: Option<State>, blocked: seq<State>, hold: Option<Hold>,
                          history: seq<Emission>, interrupted: bool)
  {
    forall m {:trigger Allowed(p, k, config, blocked, hold, m)} ::
      Allowed(p, k, config, blocked, hold, m) ==> Told(p, k, history, interrupted, m)
  }

  lemma DrainedCovered(p: Problem, k: nat, cs: seq<Clause>, config: Option<State>, blocked: seq<State>, hold: Option<Hold>,
                       history: seq<Emission>, interrupted: bool)
    requires Recorded(p, k, cs, config, blocked, hold, history, interrupted) && Models(p.enc(k).n, cs) == {}
    ensures Covered(p, k, config, blocked, hold, history, interrupted)
  {
  }

  lemma ToldGrows(p: Problem, k: nat, history: seq<Emission>, interrupted: bool, history': seq<Emission>, interrupted': bool, m: Assignment)
    requires Told(p, k, history, interrupted, m) && history <= history' && (interrupted ==> interrupted')
    ensures Told(p, k, history', interrupted', m)
  {
    var x :| x in history && Accounts(p, k, m, interrupted, x);
    assert x in history' && Accounts(p, k, m, interrupted', x);
  }

  lemma CoveredGrows(p: Problem, k: nat, config: Option<State>, blocked: seq<State>, hold: Option<Hold>,
                     history: seq<Emission>, interrupted: bool, history': seq<Emission>, interrupted': bool)
    requires Covered(p, k, config, blocked, hold, history, interrupted) && history <= history' && (interrupted ==> interrupted')
    ensures Covered(p, k, config, blocked, hold, history', interrupted')
  {
    forall m | Allowed(p, k, config, blocked, hold, m)
      ensures Told(p, k, history', interrupted', m)
    {
      ToldGrows(p, k, history, interrupted, history', interrupted', m);
    }
  }

  /** Adopting a configuration asks for fewer solutions. */
  lemma AdoptNarrows(p: Problem, k: nat, config: State, blocked: seq<State>, hold: Option<Hold>, history: seq<Emission>, interrupted: bool)
    requires Covered(p, k, None, blocked, hold, history, interrupted)
    ensures Covered(p, k, Some(config), blocked, hold, history, interrupted)
  {
    forall m | Allowed(p, k, Some(config), blocked, hold, m)
      ensures Told(p, k, history, interrupted, m)
    {
      assert Allowed(p, k, None, blocked, hold, m);
    }
  }

  ghost function EmissionOf(p: Problem, k: nat, m: Assignment): Emission {
    Emission(k, KeyAt(p, k, m), m)
  }

  /** Blocking a drawn model leaves what its own emission accounts for. */
  lemma BlockRecords(p: Problem, k: nat, cs: seq<Clause>, config: Option<State>, blocked: seq<State>, hold: Option<Hold>,
                     history: seq<Emission>, interrupted: bool, m: Assignment)
    requires GoodEnc(p.rels, k, p.enc(k)) && m in Models(p.enc(k).n, cs)
    requires Recorded(p, k, cs, config, blocked, hold, history, interrupted)
    ensures var clause := Block(m, SolutionVars(p, k));
      !ClauseHolds(m, clause) && Recorded(p, k, cs + [clause], config, blocked, hold, history + [EmissionOf(p, k, m)], interrupted)
  {
    var e, x := p.enc(k), EmissionOf(p, k, m);
    hide Allowed, KeyAt, ClauseHolds, GoodEnc, Block, Consecutive, Satisfies, SameOn;
    BlockedOut(p, k, cs, m);
    var clause := Block(m, SolutionVars(p, k));
    forall m' | Allowed(p, k, config, blocked, hold, m') && m' !in Models(e.n, cs + [clause])
      ensures Told(p, k, history + [x], interrupted, m')
    {
      if m' in Models(e.n, cs) {
        BlockedSame(p, k, cs, m, m');
        assert x in history + [x] && Accounts(p, k, m', interrupted, x);
      } else {
        ToldGrows(p, k, history, interrupted, history + [x], interrupted, m');
      }
    }
  }

  /** The clause that blocks an assignment excludes it. */
  lemma BlockedOut(p: Problem, k: nat, cs: seq<Clause>, m: Assignment)
    requires GoodEnc(p.rels, k, p.enc(k)) && m in Models(p.enc(k).n, cs)
    ensures var vars := Consecutive(0, p.enc(k).next + k);
      && (forall j | 0 <= j < |vars| :: vars[j] < |m|)
      && !ClauseHolds(m, Block(m, vars))
  {
    BlockExcludes(m, m, Consecutive(0, p.enc(k).next + k));
  }

  lemma BlockedSame(p: Problem, k: nat, cs: seq<Clause>, m: Assignment, m': Assignment)
    requires GoodEnc(p.rels, k, p.enc(k)) && m in Models(p.enc(k).n, cs) && m' in Models(p.enc(k).n, cs)
    requires m' !in Models(p.enc(k).n, cs + [Block(m, Consecutive(0, p.enc(k).next + k))])
    ensures SameOn(m, m', SolutionVars(p, k)) && KeyAt(p, k, m') == KeyAt(p, k, m)
  {
    var e := p.enc(k);
    var vars := Consecutive(0, e.next + e.k);
    SatisfiesAdd(m', cs, Block(m, vars));
    BlockExcludes(m, m', vars);
    SameShown(p.rels, e, m, m');
  }

  /** A drawn solution that is accounted for need not be shown. */
  lemma SkipRecords(p: Problem, k: nat, cs: seq<Clause>, config: Option<State>, blocked: seq<State>, hold: Option<Hold>,
                    history: seq<Emission>, interrupted: bool, m: Assignment)
    requires GoodEnc(p.rels, k, p.enc(k)) && |m| == p.enc(k).n
    requires Recorded(p, k, cs, config, blocked, hold, history + [EmissionOf(p, k, m)], interrupted) && Told(p, k, history, interrupted, m)
    ensures Recorded(p, k, cs, config, blocked, hold, history, interrupted)
  {
    hide GoodEnc, KeyAt, Consecutive;
    forall m' | Allowed(p, k, config, blocked, hold, m') && m' !in Models(p.enc(k).n, cs)
      ensures Told(p, k, history, interrupted, m')
    {
      var y :| y in history + [EmissionOf(p, k, m)] && Accounts(p, k, m', interrupted, y);
      if y !in history {
        var x :| x in history && Accounts(p, k, m, interrupted, x);
        assert Accounts(p, k, m', interrupted, x);
      }
    }
  }

  /** Emissions are what their solutions show. */
  ghost predicate HistoryOk(p: Problem, history: seq<Emission>) {
    forall x | x in history :: x.key == KeyAt(p, x.k, x.model)
  }

  lemma MoreSound(p: Problem, k: nat, cs: seq<Clause>, config: Option<State>, blocked: seq<State>, hold: Option<Hold>, clause: Clause)
    requires Sound(p, k, cs, config, blocked, hold)
    ensures Sound(p, k, cs + [clause], config, blocked, hold)
  {
    forall m | m in Models(p.enc(k).n, cs + [clause])
      ensures Allowed(p, k, config, blocked, hold, m)
    {
      SatisfiesAdd(m, cs, clause);
      assert m in Models(p.enc(k).n, cs);
    }
  }

  // ------------------------------------------------------------------ clauses over one solver

  /** The relation has this value. */
  ghost predicate Has(e: Enc, key: RelKey, value: TupleSet, m: Assignment) {
    key in Decode(e.layout, m) && Decode(e.layout, m)[key] == value
  }

  method FindDecode(e: Enc, key: RelKey) returns (j: nat)
    requires exists x :: 0 <= x < |e.layout| && e.layout[x].key == key
    ensures j < |e.layout| && e.layout[j].key == key
  {
    j := 0;
    while j < |e.layout| && e.layout[j].key != key
      invariant j <= |e.layout| && forall x | 0 <= x < j :: e.layout[x].key != key
    {
      j := j + 1;
    }
  }

  /** Unit-fixes the relation to exactly the value. */
  method FixRelation(solver: LiveSolver, e: Enc, key: RelKey, value: TupleSet, ghost bound: RelBound, ghost n: nat)
    requires DistinctLayout(e.layout) && (forall j | 0 <= j < |e.layout| :: GoodDecode(e.layout[j], e.next))
    requires Traces.Binds(e, key, bound) && bound.lower <= value <= bound.upper && e.next <= n
    modifies solver
    ensures forall m | |m| == n :: Satisfies(m, solver.clauses) <==> Satisfies(m, old(solver.clauses)) && Has(e, key, value, m)
  {
    var j := FindDecode(e, key);
    var d := e.layout[j];
    var units := Units(d, value);
    var i := 0;
    while i < |units|
      invariant 0 <= i <= |units| && solver.clauses == old(solver.clauses) + units[..i]
    {
      solver.AddClause(units[i]);
      i := i + 1;
    }
    assert units[..i] == units;
    forall m | |m| == n
      ensures Satisfies(m, solver.clauses) <==> Satisfies(m, old(solver.clauses)) && Has(e, key, value, m)
    {
      SatisfiesJoin(m, old(solver.clauses), units);
      RelExact(e, key, bound, j, value, m);
      UnitsExact(d, value, m);
    }
  }

  lemma RelExact(e: Enc, key: RelKey, bound: RelBound, j: nat, value: TupleSet, m: Assignment)
    requires DistinctLayout(e.layout) && Traces.Binds(e, key, bound) && bound.lower <= value <= bound.upper
    requires j < |e.layout| && e.layout[j].key == key && GoodDecode(e.layout[j], e.next) && e.next <= |m|
    ensures Fits(e.layout[j], value) && GoodDecode(e.layout[j], |m|)
    ensures Has(e, key, value, m) <==> DecodeRel(e.layout[j], m) == value
  {
    var x := BoundDecode(e, key, bound, m);
    assert !(x < j) && !(j < x);
  }

  /** The literals saying that the relation is not the value. */
  method RelationDiffers(e: Enc, key: RelKey, value: TupleSet, ghost bound: RelBound, ghost n: nat) returns (lits: Clause)
    requires DistinctLayout(e.layout) && (forall j | 0 <= j < |e.layout| :: GoodDecode(e.layout[j], e.next))
    requires Traces.Binds(e, key, bound) && bound.lower <= value <= bound.upper && e.next <= n
    ensures forall m: Assignment | |m| == n :: ClauseHolds(m, lits) <==> !Has(e, key, value, m)
    ensures bound.lower != bound.upper <==> lits != []
  {
    var j := FindDecode(e, key);
    var d := e.layout[j];
    lits := Differs(d, value);
    forall m: Assignment | |m| == n
      ensures ClauseHolds(m, lits) <==> !Has(e, key, value, m)
    {
      RelExact(e, key, bound, j, value, m);
      DiffersExact(d, value, m);
    }
    FreeFloats(e, key, bound, j);
  }

  lemma FreeFloats(e: Enc, key: RelKey, bound: RelBound, j: nat)
    requires DistinctLayout(e.layout) && Traces.Binds(e, key, bound) && j < |e.layout| && e.layout[j].key == key
    requires bound.lower <= bound.upper && GoodDecode(e.layout[j], e.next)
    ensures bound.lower != bound.upper <==> e.layout[j].floating != []
  {
    var x := BoundDecode(e, key, bound, []);
    assert !(x < j) && !(j < x);
    var d := e.layout[j];
    assert Fits(d, bound.lower) && Fits(d, bound.upper);
    assert Fits(d, d.lower);
    if d.floating != [] {
      var t := d.floating[0].0;
      assert Fits(d, d.lower + {t}) && t !in d.lower;
    }
    if bound.lower != bound.upper {
      var t :| t in bound.upper && t !in bound.lower;
      assert t !in d.lower;
    }
  }

  // ------------------------------------------------------------------ several relations at once

  /** A relation, the value it is compared with, and the bound both lie in. */
  datatype Target = Target(key: RelKey, value: TupleSet, bound: RelBound)

  ghost predicate GoodTargets(e: Enc, ts: seq<Target>) {
    forall t | t in ts :: Traces.Binds(e, t.key, t.bound) && t.bound.lower <= t.value <= t.bound.upper
  }

  ghost predicate HasAll(e: Enc, ts: seq<Target>, m: Assignment) {
    forall t | t in ts :: Has(e, t.key, t.value, m)
  }

  lemma HasAllNext(e: Enc, ts: seq<Target>, i: nat, m: Assignment)
    requires i < |ts|
    ensures HasAll(e, ts[..i + 1], m) <==> HasAll(e, ts[..i], m) && Has(e, ts[i].key, ts[i].value, m)
  {
    assert forall t :: t in ts[..i + 1] <==> t in ts[..i] || t == ts[i];
  }

  ghost predicate Pinned(e: Enc, before: seq<Clause>, after: seq<Clause>, ts: seq<Target>) {
    forall m: Assignment | |m| == e.n :: Satisfies(m, after) <==> Satisfies(m, before) && HasAll(e, ts, m)
  }

  ghost predicate Excludes(e: Enc, clause: Clause, ts: seq<Target>) {
    forall m: Assignment | |m| == e.n :: ClauseHolds(m, clause) <==> !HasAll(e, ts, m)
  }

  lemma PinnedNext(e: Enc, before: seq<Clause>, mid: seq<Clause>, after: seq<Clause>, ts: seq<Target>, i: nat)
    requires i < |ts| && Pinned(e, before, mid, ts[..i])
    requires forall m: Assignment | |m| == e.n :: Satisfies(m, after) <==> Satisfies(m, mid) && Has(e, ts[i].key, ts[i].value, m)
    ensures Pinned(e, before, after, ts[..i + 1])
  {
    forall m: Assignment | |m| == e.n { HasAllNext(e, ts, i, m); }
  }

  lemma ExcludesNext(e: Enc, clause: Clause, lits: Clause, ts: seq<Target>, i: nat)
    requires i < |ts| && Excludes(e, clause, ts[..i])
    requires forall m: Assignment | |m| == e.n :: ClauseHolds(m, lits) <==> !Has(e, ts[i].key, ts[i].value, m)
    ensures Excludes(e, clause + lits, ts[..i + 1])
  {
    forall m: Assignment | |m| == e.n
      ensures ClauseHolds(m, clause + lits) <==> !HasAll(e, ts[..i + 1], m)
    {
      HasAllNext(e, ts, i, m);
      ClauseJoin(m, clause, lits);
    }
  }

  /** Unit-fixes every target. */
  method FixAll(solver: LiveSolver, e: Enc, ts: seq<Target>)
    requires DistinctLayout(e.layout) && (forall j | 0 <= j < |e.layout| :: GoodDecode(e.layout[j], e.next))
    requires GoodTargets(e, ts) && e.next <= e.n
    modifies solver
    ensures Pinned(e, old(solver.clauses), solver.clauses, ts)
  {
    hide Satisfies, Has, GoodDecode, DistinctLayout, Pinned;
    var i := 0;
    assert Pinned(e, solver.clauses, solver.clauses, ts[..0]) by { NothingPinned(e, solver.clauses, ts[..0]); }
    while i < |ts|
      invariant 0 <= i <= |ts| && Pinned(e, old(solver.clauses), solver.clauses, ts[..i])
    {
      ghost var mid := solver.clauses;
      FixRelation(solver, e, ts[i].key, ts[i].value, ts[i].bound, e.n);
      PinnedNext(e, old(solver.clauses), mid, solver.clauses, ts, i);
      i := i + 1;
    }
    assert ts[..i] == ts;
  }

  lemma NothingPinned(e: Enc, cs: seq<Clause>, ts: seq<Target>)
    requires ts == []
    ensures Pinned(e, cs, cs, ts) && Excludes(e, [], ts)
  {
  }

  /** The literals saying that some target does not have its value. */
  method SomeDiffers(e: Enc, ts: seq<Target>) returns (clause: Clause)
    requires DistinctLayout(e.layout) && (forall j | 0 <= j < |e.layout| :: GoodDecode(e.layout[j], e.next))
    requires GoodTargets(e, ts) && e.next <= e.n
    ensures Excludes(e, clause, ts)
    ensures (exists t :: t in ts && t.bound.lower != t.bound.upper) <==> clause != []
  {
    hide ClauseHolds, Has, GoodDecode, DistinctLayout, Excludes;
    clause := [];
    var i := 0;
    NothingPinned(e, [], ts[..0]);
    while i < |ts|
      invariant 0 <= i <= |ts| && Excludes(e, clause, ts[..i])
      invariant (exists t :: t in ts[..i] && t.bound.lower != t.bound.upper) <==> clause != []
    {
      var lits := RelationDiffers(e, ts[i].key, ts[i].value, ts[i].bound, e.n);
      ExcludesNext(e, clause, lits, ts, i);
      clause := clause + lits;
      i := i + 1;
    }
    assert ts[..i] == ts;
  }

  // ------------------------------------------------------------------ configurations

  function ConfigTargets(rels: Model, config: State): seq<Target> {
    if rels == [] then []
    else
      var r := rels[|rels| - 1];
      ConfigTargets(rels[..|rels| - 1], config)
      + if !r.variable && r.id in config then [Target(Static(r.id), config[r.id], r.bound)] else []
  }

  lemma {:induction false} InConfigTargets(rels: Model, config: State, t: Target)
    ensures t in ConfigTargets(rels, config) <==>
            exists r :: r in rels && !r.variable && r.id in config && t == Target(Static(r.id), config[r.id], r.bound)
    decreases |rels|
  {
    if rels != [] {
      var front, last := rels[..|rels| - 1], rels[|rels| - 1];
      assert forall r :: r in rels <==> r in front || r == last;
      InConfigTargets(front, config, t);
    }
  }

  lemma ConfigTargetsGood(rels: Model, e: Enc, config: State)
    requires GoodModel(rels) && GoodEnc(rels, e.k, e) && ConfigFor(rels, config)
    ensures GoodTargets(e, ConfigTargets(rels, config))
    ensures HasFreeStatic(rels) ==> exists t :: t in ConfigTargets(rels, config) && t.bound.lower != t.bound.upper
  {
    forall t | t in ConfigTargets(rels, config)
      ensures Traces.Binds(e, t.key, t.bound) && t.bound.lower <= t.value <= t.bound.upper
    {
      InConfigTargets(rels, config, t);
    }
    if HasFreeStatic(rels) {
      var j :| 0 <= j < |rels| && !rels[j].variable && rels[j].bound.lower != rels[j].bound.upper;
      assert rels[j] in rels;
      InConfigTargets(rels, config, Target(Static(rels[j].id), config[rels[j].id], rels[j].bound));
    }
  }

  /** Having the configuration's values is showing that configuration. */
  lemma ConfigTargetsExact(rels: Model, e: Enc, config: State, m: Assignment)
    requires GoodModel(rels) && GoodEnc(rels, e.k, e) && ConfigFor(rels, config)
    ensures HasAll(e, ConfigTargets(rels, config), m) <==> ConfigAt(rels, e, m) == config
  {
    var flat := Decode(e.layout, m);
    ConfigShown(rels, e, m);
    ConfigExact(rels, flat, config);
    if HasAll(e, ConfigTargets(rels, config), m) {
      forall r | r in rels && !r.variable
        ensures Static(r.id) in flat && r.id in config && flat[Static(r.id)] == config[r.id]
      {
        InConfigTargets(rels, config, Target(Static(r.id), config[r.id], r.bound));
        assert Has(e, Static(r.id), config[r.id], m);
      }
    }
    if HoldsConfig(rels, flat, config) {
      forall t | t in ConfigTargets(rels, config) ensures Has(e, t.key, t.value, m) { InConfigTargets(rels, config, t); }
    }
  }

  /** Some static relation has a floating tuple. */
  predicate HasFreeStatic(rels: Model) {
    exists j | 0 <= j < |rels| :: !rels[j].variable && rels[j].bound.lower != rels[j].bound.upper
  }

  /** Fixes every static relation to the configuration's value. */
  method LockConfig(solver: LiveSolver, rels: Model, e: Enc, config: State)
    requires GoodModel(rels) && GoodEnc(rels, e.k, e) && ConfigFor(rels, config)
    modifies solver
    ensures forall m | |m| == e.n :: Satisfies(m, solver.clauses) <==> Satisfies(m, old(solver.clauses)) && ConfigAt(rels, e, m) == config
  {
    ConfigTargetsGood(rels, e, config);
    FixAll(solver, e, ConfigTargets(rels, config));
    forall m | |m| == e.n { ConfigTargetsExact(rels, e, config, m); }
  }

  /** Forbids the configuration. */
  method BlockConfig(solver: LiveSolver, rels: Model, e: Enc, config: State)
    requires GoodModel(rels) && GoodEnc(rels, e.k, e) && ConfigFor(rels, config) && HasFreeStatic(rels)
    modifies solver
    ensures forall m | |m| == e.n :: Satisfies(m, solver.clauses) <==> Satisfies(m, old(solver.clauses)) && ConfigAt(rels, e, m) != config
  {
    ConfigTargetsGood(rels, e, config);
    var clause := SomeDiffers(e, ConfigTargets(rels, config));
    forall m | |m| == e.n
      ensures Satisfies(m, solver.clauses + [clause]) <==> Satisfies(m, solver.clauses) && ConfigAt(rels, e, m) != config
    {
      SatisfiesAdd(m, solver.clauses, clause);
      ConfigTargetsExact(rels, e, config, m);
    }
    if clause != [] {
      solver.AddClause(clause);
    }
  }

  // ------------------------------------------------------------------ holding and changing states

  ghost predicate VarState(rels: Model, state: State) {
    && (forall id | id in state :: HasRel(rels, id, true))
    && forall r | r in rels && r.variable :: r.id in state && r.bound.lower <= state[r.id] <= r.bound.upper
  }

  function StateTargets(rels: Model, s: nat, state: State): seq<Target> {
    if rels == [] then []
    else
      var r := rels[|rels| - 1];
      StateTargets(rels[..|rels| - 1], s, state)
      + if r.variable && r.id in state then [Target(Copy(r.id, s), state[r.id], r.bound)] else []
  }

  lemma {:induction false} InStateTargets(rels: Model, s: nat, state: State, t: Target)
    ensures t in StateTargets(rels, s, state) <==>
            exists r :: r in rels && r.variable && r.id in state && t == Target(Copy(r.id, s), state[r.id], r.bound)
    decreases |rels|
  {
    if rels != [] {
      var front, last := rels[..|rels| - 1], rels[|rels| - 1];
      assert forall r :: r in rels <==> r in front || r == last;
      InStateTargets(front, s, state, t);
    }
  }

  /** Some variable relation has a floating tuple. */
  predicate HasFreeVariable(rels: Model) {
    exists j | 0 <= j < |rels| :: rels[j].variable && rels[j].bound.lower != rels[j].bound.upper
  }

  lemma StateTargetsGood(rels: Model, e: Enc, s: nat, state: State)
    requires GoodEnc(rels, e.k, e) && VarState(rels, state) && s < e.k
    ensures GoodTargets(e, StateTargets(rels, s, state))
    ensures HasFreeVariable(rels) <==> exists t :: t in StateTargets(rels, s, state) && t.bound.lower != t.bound.upper
  {
    if t :| t in StateTargets(rels, s, state) && t.bound.lower != t.bound.upper {
      InStateTargets(rels, s, state, t);
      var r :| r in rels && r.variable && t == Target(Copy(r.id, s), state[r.id], r.bound);
      var j :| 0 <= j < |rels| && rels[j] == r;
      assert HasFreeVariable(rels);
    }
    if HasFreeVariable(rels) {
      var j :| 0 <= j < |rels| && rels[j].variable && rels[j].bound.lower != rels[j].bound.upper;
      assert rels[j] in rels;
      InStateTargets(rels, s, state, Target(Copy(rels[j].id, s), state[rels[j].id], rels[j].bound));
    }
    forall t | t in StateTargets(rels, s, state)
      ensures Traces.Binds(e, t.key, t.bound) && t.bound.lower <= t.value <= t.bound.upper
    {
      InStateTargets(rels, s, state, t);
    }
  }

  /** Having the state's values is showing that state. */
  lemma StateTargetsExact(rels: Model, e: Enc, s: nat, state: State, m: Assignment)
    requires GoodModel(rels) && GoodEnc(rels, e.k, e) && VarState(rels, state) && s < e.k
    ensures HasAll(e, StateTargets(rels, s, state), m) <==> LassoAt(rels, e, m).states[s] == state
  {
    var flat := Decode(e.layout, m);
    var part := VarPart(rels, flat, s);
    if HasAll(e, StateTargets(rels, s, state), m) {
      forall id
        ensures id in part <==> id in state
        ensures id in state ==> part[id] == state[id]
      {
        VarPartAt(rels, flat, s, id);
        if id in state {
          var r :| r in rels && r.id == id && r.variable;
          InStateTargets(rels, s, state, Target(Copy(r.id, s), state[r.id], r.bound));
          assert Has(e, Copy(r.id, s), state[r.id], m);
        }
      }
    }
    if part == state {
      forall t | t in StateTargets(rels, s, state)
        ensures Has(e, t.key, t.value, m)
      {
        InStateTargets(rels, s, state, t);
        var r :| r in rels && r.variable && r.id in state && t == Target(Copy(r.id, s), state[r.id], r.bound);
        VarPartAt(rels, flat, s, r.id);
      }
    }
  }

  /** Fixes one state of the trace. */
  method HoldState(solver: LiveSolver, rels: Model, e: Enc, s: nat, state: State)
    requires GoodModel(rels) && GoodEnc(rels, e.k, e) && VarState(rels, state) && s < e.k
    modifies solver
    ensures forall m | |m| == e.n :: Satisfies(m, solver.clauses) <==> Satisfies(m, old(solver.clauses)) && LassoAt(rels, e, m).states[s] == state
  {
    StateTargetsGood(rels, e, s, state);
    FixAll(solver, e, StateTargets(rels, s, state));
    forall m | |m| == e.n { StateTargetsExact(rels, e, s, state, m); }
  }

  /** The literals saying that a state of the trace is not this one. */
  method StateDiffers(rels: Model, e: Enc, s: nat, state: State) returns (clause: Clause)
    requires GoodModel(rels) && GoodEnc(rels, e.k, e) && VarState(rels, state) && s < e.k
    ensures forall m: Assignment | |m| == e.n :: ClauseHolds(m, clause) <==> LassoAt(rels, e, m).states[s] != state
    ensures HasFreeVariable(rels) <==> clause != []
  {
    StateTargetsGood(rels, e, s, state);
    clause := SomeDiffers(e, StateTargets(rels, s, state));
    forall m: Assignment | |m| == e.n { StateTargetsExact(rels, e, s, state, m); }
  }

  // ------------------------------------------------------------------ the explorer

  datatype Step = NextPath | NextConfig | Fork(upto: nat)

  datatype Advance = Shown(trace: Trace) | Exhausted | SameConfig | BudgetExhausted | PrimaryVarCap(k: nat, primaries: nat)

  datatype Stage = Stage(k: nat, solver: LiveSolver, spent: bool)

  ghost predicate NoRepeats(history: seq<Emission>) {
    forall a, b | 0 <= a < b < |history| :: history[a].k < history[b].k ==> history[a].key != history[b].key
  }

  ghost predicate KeysOf(history: seq<Emission>, keys: set<Key>) {
    && (forall x | x in history :: x.key in keys)
    && forall key | key in keys :: exists x :: x in history && x.key == key
  }

  ghost predicate LengthsIn(history: seq<Emission>, min: nat, max: nat) {
    forall x | x in history :: min <= x.k <= max
  }

  /** Emissions shorter than `k` are in the across-length set. */
  ghost predicate ShorterIn(history: seq<Emission>, k: nat, emitted: set<Key>) {
    forall x | x in history && x.k < k :: x.key in emitted
  }

  /** The across-length set holds only keys shown below this length. */
  ghost predicate EmittedBelow(history: seq<Emission>, k: nat, emitted: set<Key>) {
    forall key | key in emitted :: exists x :: x in history && x.k < k && x.key == key
  }

  /** This length's set holds only keys shown at this length. */
  ghost predicate EmittedAt(history: seq<Emission>, k: nat, here: set<Key>) {
    forall key | key in here :: exists x :: x in history && x.k == k && x.key == key
  }

  ghost predicate CoveredBelow(p: Problem, k: nat, config: Option<State>, blocked: seq<State>, history: seq<Emission>, interrupted: bool) {
    forall j: nat | p.min <= j < k :: Covered(p, j, config, blocked, None, history, interrupted)
  }

  /** The length is not refused for its number of primaries. */
  predicate WithinCap(p: Problem, k: nat) {
    p.cap.None? || PrimaryCount(p.rels, k) <= p.cap.value
  }

  /** A displayed trace: a lasso of the model's variable relations. */
  ghost predicate Displayable(p: Problem, t: Trace) {
    && Valid(t.lasso) && p.min <= |t.lasso.states| <= p.max
    && forall s | 0 <= s < |t.lasso.states| :: VarState(p.rels, t.lasso.states[s])
  }

  lemma ShownDisplayable(p: Problem, k: nat, m: Assignment)
    requires GoodProblem(p) && p.min <= k <= p.max && m in Models(p.enc(k).n, p.enc(k).base)
    ensures Displayable(p, TraceAt(p.rels, p.enc(k), m))
  {
    var e := p.enc(k);
    LassoValid(p.rels, e, m);
    var flat := Decode(e.layout, m);
    forall s | 0 <= s < k
      ensures VarState(p.rels, VarPart(p.rels, flat, s))
    {
      forall id | id in VarPart(p.rels, flat, s) ensures HasRel(p.rels, id, true) { VarPartAt(p.rels, flat, s, id); }
      forall r | r in p.rels && r.variable
        ensures r.id in VarPart(p.rels, flat, s) && r.bound.lower <= VarPart(p.rels, flat, s)[r.id] <= r.bound.upper
      {
        DecodedBound(e, Copy(r.id, s), r.bound, m);
        assert HasRel(p.rels, r.id, true);
        VarPartAt(p.rels, flat, s, r.id);
      }
    }
  }

  /** The number of floating tuples of the unrolled bounds. */
  function PrimaryCount(rels: Model, k: nat): nat
    decreases |rels|
  {
    if rels == [] then 0
    else
      var r := rels[|rels| - 1];
      PrimaryCount(rels[..|rels| - 1], k) + |r.bound.upper - r.bound.lower| * (if r.variable then k else 1)
  }

  method BlockingClause(p: Problem, k: nat, m: Assignment) returns (clause: Clause)
    requires |m| == p.enc(k).n && p.enc(k).next + k <= p.enc(k).n
    ensures clause == Block(m, SolutionVars(p, k))
  {
    clause := Block(m, Consecutive(0, p.enc(k).next + k));
  }

  /** A drawn model answers the question; blocking it leaves fewer models and nothing unaccounted for. */
  lemma DrawnBlocked(p: Problem, k: nat, cs: seq<Clause>, config: Option<State>, blocked: seq<State>, hold: Option<Hold>,
                     history: seq<Emission>, interrupted: bool, m: Assignment)
    requires GoodProblem(p) && k >= 1 && Sound(p, k, cs, config, blocked, hold) && m in Models(p.enc(k).n, cs)
    requires Recorded(p, k, cs, config, blocked, hold, history, interrupted)
    ensures Allowed(p, k, config, blocked, hold, m) && |m| == p.enc(k).n && p.enc(k).next + k <= p.enc(k).n
    ensures var cs' := cs + [Block(m, SolutionVars(p, k))];
      && Sound(p, k, cs', config, blocked, hold)
      && Recorded(p, k, cs', config, blocked, hold, history + [EmissionOf(p, k, m)], interrupted)
      && |Models(p.enc(k).n, cs')| < |Models(p.enc(k).n, cs)|
  {
    hide Allowed, GoodEnc, Block, Consecutive, Recorded, Sound;
    EncShape(p, k);
    SoundAt(p, k, cs, config, blocked, hold, m);
    BlockedOut(p, k, cs, m);
    BlockRecords(p, k, cs, config, blocked, hold, history, interrupted, m);
    ModelsShrink(p.enc(k).n, cs, Block(m, SolutionVars(p, k)), m);
    MoreSound(p, k, cs, config, blocked, hold, Block(m, SolutionVars(p, k)));
  }

  lemma SoundAt(p: Problem, k: nat, cs: seq<Clause>, config: Option<State>, blocked: seq<State>, hold: Option<Hold>, m: Assignment)
    requires Sound(p, k, cs, config, blocked, hold) && m in Models(p.enc(k).n, cs)
    ensures Allowed(p, k, config, blocked, hold, m)
  {
  }

  lemma EncShape(p: Problem, k: nat)
    requires GoodProblem(p) && k >= 1
    ensures GoodEnc(p.rels, k, p.enc(k)) && p.enc(k).k == k && p.enc(k).next + k <= p.enc(k).n
  {
  }

  /** The trace is one the question asks for. */
  ghost predicate Answers(p: Problem, k: nat, config: Option<State>, blocked: seq<State>, hold: Option<Hold>, t: Trace) {
    exists m :: Allowed(p, k, config, blocked, hold, m) && t == TraceAt(p.rels, p.enc(k), m)
  }

  lemma ShownAnswers(p: Problem, k: nat, config: Option<State>, blocked: seq<State>, hold: Option<Hold>, m: Assignment)
    requires GoodProblem(p) && p.min <= k <= p.max && Allowed(p, k, config, blocked, hold, m)
    ensures var t := TraceAt(p.rels, p.enc(k), m);
      && Displayable(p, t) && |t.lasso.states| == k && KeyAt(p, k, m) == KeyOf(t.lasso)
      && Answers(p, k, config, blocked, hold, t) && ConfigFor(p.rels, t.config)
      && (config.Some? ==> t.config == config.value)
    ensures ExactlyOne(m, p.enc(k).next, k) && p.enc(k).k == k
  {
    ShownDisplayable(p, k, m);
    ConfigShown(p.rels, p.enc(k), m);
  }

  /** Locking the configuration of the first trace keeps the stage's bookkeeping. */
  lemma AdoptStage(p: Problem, k: nat, cs: seq<Clause>, cs': seq<Clause>, c: State, blocked: seq<State>, hold: Option<Hold>,
                   history: seq<Emission>, interrupted: bool)
    requires Sound(p, k, cs, None, blocked, hold) && Recorded(p, k, cs, None, blocked, hold, history, interrupted)
    requires forall m | |m| == p.enc(k).n :: Satisfies(m, cs') <==> Satisfies(m, cs) && ConfigAt(p.rels, p.enc(k), m) == c
    ensures Sound(p, k, cs', Some(c), blocked, hold) && Recorded(p, k, cs', Some(c), blocked, hold, history, interrupted)
  {
    var n := p.enc(k).n;
    forall m | m in Models(n, cs')
      ensures Allowed(p, k, Some(c), blocked, hold, m)
    {
      assert m in Models(n, cs);
    }
    forall m | Allowed(p, k, Some(c), blocked, hold, m) && m !in Models(n, cs')
      ensures Told(p, k, history, interrupted, m)
    {
      assert Allowed(p, k, None, blocked, hold, m);
      assert m !in Models(n, cs);
    }
  }

  lemma AdoptBelow(p: Problem, k: nat, c: State, blocked: seq<State>, history: seq<Emission>, interrupted: bool)
    ensures CoveredBelow(p, k, None, blocked, history, interrupted) ==> CoveredBelow(p, k, Some(c), blocked, history, interrupted)
  {
    if CoveredBelow(p, k, None, blocked, history, interrupted) {
      forall j: nat | p.min <= j < k { AdoptNarrows(p, j, c, blocked, None, history, interrupted); }
    }
  }

  lemma BelowGrows(p: Problem, k: nat, config: Option<State>, blocked: seq<State>,
                   history: seq<Emission>, interrupted: bool, history': seq<Emission>, interrupted': bool)
    requires CoveredBelow(p, k, config, blocked, history, interrupted) && history <= history' && (interrupted ==> interrupted')
    ensures CoveredBelow(p, k, config, blocked, history', interrupted')
  {
    forall j: nat | p.min <= j < k { CoveredGrows(p, j, config, blocked, None, history, interrupted, history', interrupted'); }
  }

  /** A solver that admits exactly the unforked question's answers. */
  method BuildSolver(p: Problem, k: nat, config: Option<State>, blocked: seq<State>) returns (solver: LiveSolver)
    requires GoodProblem(p) && k >= 1 && (config.Some? ==> ConfigFor(p.rels, config.value))
    requires (forall j | 0 <= j < |blocked| :: ConfigFor(p.rels, blocked[j])) && (blocked != [] ==> HasFreeStatic(p.rels))
    ensures fresh(solver) && solver.numVars == p.enc(k).n
    ensures forall m :: m in Models(p.enc(k).n, solver.clauses) <==> Allowed(p, k, config, blocked, None, m)
  {
    var e := p.enc(k);
    assert GoodEnc(p.rels, k, e) && e.k == k;
    solver := new LiveSolver(e.n, e.base);
    if config.Some? {
      LockConfig(solver, p.rels, e, config.value);
    }
    BlockAll(solver, p.rels, e, blocked);
  }

  /** Forbids every configuration visited before. */
  method BlockAll(solver: LiveSolver, rels: Model, e: Enc, blocked: seq<State>)
    requires GoodModel(rels) && GoodEnc(rels, e.k, e)
    requires (forall j | 0 <= j < |blocked| :: ConfigFor(rels, blocked[j])) && (blocked != [] ==> HasFreeStatic(rels))
    modifies solver
    ensures forall m | |m| == e.n :: Satisfies(m, solver.clauses) <==> Satisfies(m, old(solver.clauses)) && ConfigAt(rels, e, m) !in blocked
  {
    hide GoodEnc, ConfigFor, HasFreeStatic, ConfigAt, Satisfies, GoodModel;
    var i := 0;
    while i < |blocked|
      invariant 0 <= i <= |blocked|
      invariant forall m | |m| == e.n :: Satisfies(m, solver.clauses) <==> Satisfies(m, old(solver.clauses)) && ConfigAt(rels, e, m) !in blocked[..i]
    {
      BlockConfig(solver, rels, e, blocked[i]);
      i := i + 1;
    }
    assert blocked[..i] == blocked;
  }

  lemma FreshStage(p: Problem, k: nat, cs: seq<Clause>, config: Option<State>, blocked: seq<State>, history: seq<Emission>, interrupted: bool)
    requires forall m :: m in Models(p.enc(k).n, cs) <==> Allowed(p, k, config, blocked, None, m)
    ensures Sound(p, k, cs, config, blocked, None) && Recorded(p, k, cs, config, blocked, None, history, interrupted)
  {
  }

  lemma HistoryNext(p: Problem, history: seq<Emission>, emitted: set<Key>, here: set<Key>, k: nat, m: Assignment, min: nat, max: nat)
    requires LengthsIn(history, min, max) && min <= k <= max && HistoryOk(p, history)
    requires KeysOf(history, emitted + here) && NoRepeats(history) && ShorterIn(history, k, emitted) && KeyAt(p, k, m) !in emitted
    ensures var x := EmissionOf(p, k, m);
      && KeysOf(history + [x], emitted + (here + {x.key})) && NoRepeats(history + [x])
      && ShorterIn(history + [x], k, emitted) && LengthsIn(history + [x], min, max) && HistoryOk(p, history + [x])
  {
    hide KeyAt;
    var x := EmissionOf(p, k, m);
    KeysNext(history, emitted, here, x);
    NoRepeatsNext(history, emitted, x);
    assert forall y | y in history + [x] :: y in history || y == x;
  }

  lemma KeysNext(history: seq<Emission>, emitted: set<Key>, here: set<Key>, x: Emission)
    requires KeysOf(history, emitted + here)
    ensures KeysOf(history + [x], emitted + (here + {x.key}))
  {
    var h := history + [x];
    assert h[|history|] == x && x in h;
    forall key' | key' in emitted + (here + {x.key})
      ensures exists y :: y in h && y.key == key'
    {
      if key' in emitted + here { var y :| y in history && y.key == key'; assert y in h; }
    }
  }

  lemma NoRepeatsNext(history: seq<Emission>, emitted: set<Key>, x: Emission)
    requires NoRepeats(history) && ShorterIn(history, x.k, emitted) && x.key !in emitted
    ensures NoRepeats(history + [x])
  {
    forall a | 0 <= a < |history| && history[a].k < x.k
      ensures history[a].key != x.key
    {
      assert history[a] in history;
    }
  }

  /** The bookkeeping of where keys were shown survives one more emission at the live length. */
  lemma PlacesNext(history: seq<Emission>, emitted: set<Key>, here: set<Key>, swept: nat, x: Emission)
    ensures EmittedBelow(history, swept, emitted) ==> EmittedBelow(history + [x], swept, emitted)
    ensures EmittedAt(history, x.k, here) ==> EmittedAt(history + [x], x.k, here + {x.key})
  {
    var h := history + [x];
    assert h[|history|] == x && x in h && forall y :: y in history ==> y in h;
    if EmittedBelow(history, swept, emitted) {
      forall key | key in emitted ensures exists y :: y in h && y.k < swept && y.key == key {
        var y :| y in history && y.k < swept && y.key == key;
        assert y in h;
      }
    }
    if EmittedAt(history, x.k, here) {
      forall key | key in here + {x.key} ensures exists y :: y in h && y.k == x.k && y.key == key {
        if key in here {
          var y :| y in history && y.k == x.k && y.key == key;
          assert y in h;
        }
      }
    }
  }

  /** Opening at the shortest length needs nothing from before. */
  lemma StartsShort(p: Problem, history: seq<Emission>, emitted: set<Key>)
    requires LengthsIn(history, p.min, p.max)
    ensures ShorterIn(history, p.min, emitted)
  {
  }

  /** A spent length joins the shorter ones. */
  lemma Merged(p: Problem, k: nat, swept: nat, config: Option<State>, blocked: seq<State>,
               history: seq<Emission>, interrupted: bool, emitted: set<Key>, here: set<Key>)
    requires KeysOf(history, emitted + here) && k <= swept
    requires CoveredBelow(p, swept, config, blocked, history, interrupted) && Covered(p, k, config, blocked, None, history, interrupted)
    ensures ShorterIn(history, k + 1, emitted + here) && forall x | x in history :: x.key in emitted + here
    ensures CoveredBelow(p, SweptAfter(swept, k), config, blocked, history, interrupted)
    ensures SweptAfter(swept, k) >= k + 1
    ensures EmittedBelow(history, swept, emitted) && EmittedAt(history, k, here) ==> EmittedBelow(history, SweptAfter(swept, k), emitted + here)
  {
    if EmittedBelow(history, swept, emitted) && EmittedAt(history, k, here) {
      forall key | key in emitted + here
        ensures exists x :: x in history && x.k < SweptAfter(swept, k) && x.key == key
      {
        if key in emitted {
          var x :| x in history && x.k < swept && x.key == key;
        } else {
          var x :| x in history && x.k == k && x.key == key;
        }
      }
    }
  }

  /** How far the sweep has covered once length `k` is spent. */
  function SweptAfter(swept: nat, k: nat): nat {
    if swept < k + 1 then k + 1 else swept
  }

  /** A solution whose key was emitted before is accounted for. */
  lemma EmittedTold(p: Problem, k: nat, swept: nat, config: Option<State>, blocked: seq<State>,
                    history: seq<Emission>, interrupted: bool, emitted: set<Key>, here: set<Key>, m: Assignment)
    requires KeysOf(history, emitted + here) && k <= swept && p.min <= k
    requires CoveredBelow(p, swept, config, blocked, history, interrupted)
    requires !interrupted ==> EmittedBelow(history, swept, emitted)
    requires Allowed(p, k, config, blocked, None, m) && KeyAt(p, k, m) in emitted
    ensures Told(p, k, history, interrupted, m)
  {
    hide KeyAt, Allowed;
    if k < swept {
      assert Covered(p, k, config, blocked, None, history, interrupted);
    } else if interrupted {
      var x :| x in history && x.key == KeyAt(p, k, m);
      assert Accounts(p, k, m, interrupted, x);
    } else {
      var x :| x in history && x.k < swept && x.key == KeyAt(p, k, m);
      assert Accounts(p, k, m, interrupted, x);
    }
  }

  /** Once every length is covered, an answer's infinite trace has already been shown. */
  lemma NothingLeft(p: Problem, k: nat, config: Option<State>, blocked: seq<State>, history: seq<Emission>, interrupted: bool, emitted: set<Key>, m: Assignment)
    requires p.min <= k <= p.max && CoveredBelow(p, p.max + 1, config, blocked, history, interrupted)
    requires (forall x | x in history :: x.key in emitted) && Allowed(p, k, config, blocked, None, m)
    ensures KeyAt(p, k, m) in emitted
  {
    assert Covered(p, k, config, blocked, None, history, interrupted);
    var x :| x in history && Accounts(p, k, m, interrupted, x);
  }

  /** Every configuration that admits a trace of some length in the range is in the list. */
  ghost predicate EveryConfigVisited(p: Problem, visited: seq<State>) {
    forall k: nat, m | p.min <= k <= p.max && m in Models(p.enc(k).n, p.enc(k).base) :: ConfigAt(p.rels, p.enc(k), m) in visited
  }

  /** No solution of the base's length keeps its states before `upto` and changes state `upto`. */
  ghost predicate NoFork(p: Problem, config: Option<State>, blocked: seq<State>, h: Hold) {
    forall m :: !Allowed(p, |h.base.states|, config, blocked, Some(h), m)
  }

  lemma EmptyHistory(p: Problem)
    ensures KeysOf([], {} + {}) && NoRepeats([]) && LengthsIn([], p.min, p.max) && HistoryOk(p, [])
    ensures forall k: nat :: ShorterIn([], k, {}) && EmittedBelow([], k, {}) && EmittedAt([], k, {})
  {
  }

  lemma NothingHere(history: seq<Emission>, k: nat)
    ensures EmittedAt(history, k, {})
  {
  }

  lemma NothingSwept(p: Problem, config: Option<State>, blocked: seq<State>, history: seq<Emission>, interrupted: bool)
    ensures CoveredBelow(p, p.min, config, blocked, history, interrupted)
  {
  }

  lemma FreshConfig(p: Problem, k: nat, config: Option<State>, blocked: seq<State>, hold: Option<Hold>, t: Trace)
    requires Answers(p, k, config, blocked, hold, t)
    ensures t.config !in blocked
  {
  }

  /** Exhaustion with no configuration found leaves none to find. */
  lemma VisitedAll(p: Problem, blocked: seq<State>, interrupted: bool)
    requires CoveredBelow(p, p.max + 1, None, blocked, [], interrupted)
    ensures EveryConfigVisited(p, blocked)
  {
    forall k: nat, m | p.min <= k <= p.max && m in Models(p.enc(k).n, p.enc(k).base)
      ensures ConfigAt(p.rels, p.enc(k), m) in blocked
    {
      assert Covered(p, k, None, blocked, None, [], interrupted);
      if ConfigAt(p.rels, p.enc(k), m) !in blocked { assert Allowed(p, k, None, blocked, None, m); }
    }
  }

  lemma ForkShown(p: Problem, k: nat, config: Option<State>, blocked: seq<State>, h: Hold, t: Trace)
    requires Answers(p, k, config, blocked, Some(h), t)
    ensures Forks(t.lasso, h)
  {
  }

  lemma NoneCovered(p: Problem, config: Option<State>, blocked: seq<State>, h: Hold, interrupted: bool)
    requires Covered(p, |h.base.states|, config, blocked, Some(h), [], interrupted)
    ensures NoFork(p, config, blocked, h)
  {
  }

  /** Adds a fork's constraints to a freshly opened stage; nothing is added when no state can differ. */
  method HoldAndDiffer(p: Problem, solver: LiveSolver, ghost config: Option<State>, ghost blocked: seq<State>, base: Lasso, upto: nat) returns (differ: Clause)
    requires GoodProblem(p) && upto < |base.states| && p.min <= |base.states| <= p.max
    requires forall s | 0 <= s < |base.states| :: VarState(p.rels, base.states[s])
    requires forall m :: m in Models(p.enc(|base.states|).n, solver.clauses) <==> Allowed(p, |base.states|, config, blocked, None, m)
    modifies solver
    ensures differ == [] <==> !HasFreeVariable(p.rels)
    ensures var h := Hold(base, upto);
      if differ == [] then NoFork(p, config, blocked, h)
      else Sound(p, |base.states|, solver.clauses, config, blocked, Some(h)) && Recorded(p, |base.states|, solver.clauses, config, blocked, Some(h), [], false)
  {
    var k := |base.states|;
    var e := p.enc(k);
    EncShape(p, k);
    HoldPrefix(solver, p.rels, e, base, upto);
    differ := StateDiffers(p.rels, e, upto, base.states[upto]);
    if differ != [] {
      forall m { SatisfiesAdd(m, solver.clauses, differ); }
      solver.AddClause(differ);
    }
    ForkStage(p, k, old(solver.clauses), solver.clauses, config, blocked, Hold(base, upto), differ);
  }

  lemma ForkStage(p: Problem, k: nat, cs: seq<Clause>, cs': seq<Clause>, config: Option<State>, blocked: seq<State>, h: Hold, differ: Clause)
    requires GoodProblem(p) && k == |h.base.states| && k >= 1 && h.upto < k
    requires forall m :: m in Models(p.enc(k).n, cs) <==> Allowed(p, k, config, blocked, None, m)
    requires forall m: Assignment | |m| == p.enc(k).n :: ClauseHolds(m, differ) <==> LassoAt(p.rels, p.enc(k), m).states[h.upto] != h.base.states[h.upto]
    requires differ != [] ==> forall m | |m| == p.enc(k).n :: Satisfies(m, cs') <==>
      && Satisfies(m, cs) && (forall j | 0 <= j < h.upto :: LassoAt(p.rels, p.enc(k), m).states[j] == h.base.states[j])
      && LassoAt(p.rels, p.enc(k), m).states[h.upto] != h.base.states[h.upto]
    ensures if differ == [] then NoFork(p, config, blocked, h)
      else Sound(p, k, cs', config, blocked, Some(h)) && Recorded(p, k, cs', config, blocked, Some(h), [], false)
  {
    forall m
      ensures Allowed(p, k, config, blocked, Some(h), m) <==> Allowed(p, k, config, blocked, None, m) && Forks(LassoAt(p.rels, p.enc(k), m), h)
    {
    }
    if differ == [] {
      forall m ensures !Allowed(p, k, config, blocked, Some(h), m) {
        if |m| == p.enc(k).n { assert !ClauseHolds(m, differ); }
      }
    } else {
      forall m ensures m in Models(p.enc(k).n, cs') <==> Allowed(p, k, config, blocked, Some(h), m) {
        assert m in Models(p.enc(k).n, cs) <==> Allowed(p, k, config, blocked, None, m);
      }
    }
  }

  /** Holds every state strictly before `upto`. */
  method HoldPrefix(solver: LiveSolver, rels: Model, e: Enc, base: Lasso, upto: nat)
    requires GoodModel(rels) && GoodEnc(rels, e.k, e) && |base.states| == e.k && upto <= e.k
    requires forall s | 0 <= s < |base.states| :: VarState(rels, base.states[s])
    modifies solver
    ensures forall m | |m| == e.n :: Satisfies(m, solver.clauses) <==>
      Satisfies(m, old(solver.clauses)) && forall j | 0 <= j < upto :: LassoAt(rels, e, m).states[j] == base.states[j]
  {
    hide GoodEnc, GoodModel, VarState, Satisfies;
    var s := 0;
    while s < upto
      invariant 0 <= s <= upto
      invariant forall m | |m| == e.n :: Satisfies(m, solver.clauses) <==>
        Satisfies(m, old(solver.clauses)) && forall j | 0 <= j < s :: LassoAt(rels, e, m).states[j] == base.states[j]
    {
      HoldState(solver, rels, e, s, base.states[s]);
      s := s + 1;
    }
  }

  method ReadConfig(rels: Model, flat: Instance) returns (config: State)
    ensures config == StaticPart(rels, flat)
  {
    config := map[];
    var i := 0;
    while i < |rels|
      invariant 0 <= i <= |rels| && config == StaticPart(rels[..i], flat)
    {
      var key := Static(rels[i].id);
      if !rels[i].variable && key in flat { config := config[rels[i].id := flat[key]]; }
      assert rels[..i + 1][..i] == rels[..i];
      i := i + 1;
    }
    assert rels[..i] == rels;
  }

  method ReadStates(rels: Model, k: nat, flat: Instance) returns (states: seq<State>)
    ensures states == StatesOf(rels, k, flat)
  {
    states := [];
    var s := 0;
    while s < k
      invariant 0 <= s <= k && states == StatesOf(rels, s, flat)
    {
      var state: State := map[];
      var i := 0;
      while i < |rels|
        invariant 0 <= i <= |rels| && state == VarPart(rels[..i], flat, s)
      {
        var key := Copy(rels[i].id, s);
        if rels[i].variable && key in flat { state := state[rels[i].id := flat[key]]; }
        assert rels[..i + 1][..i] == rels[..i];
        i := i + 1;
      }
      assert rels[..i] == rels;
      states := states + [state];
      s := s + 1;
    }
  }

  class TraceEnumerator {
    const problem: Problem
    var stage: Option<Stage>
    var current: Option<Trace>
    var config: Option<State>
    var blockedConfigs: seq<State>
    var emitted: set<Key>
    var emittedHere: set<Key>
    var budget: Option<nat>
    var budgetSpent: bool
    var restricted: bool
    /** The fork whose question the live stage asks. */
    ghost var hold: Option<Hold>
    /** What the sweep has emitted, oldest first. */
    ghost var history: seq<Emission>
    /** Every length below this one is covered. */
    ghost var swept: nat
    /** A length was left before it was spent, so that only infinite traces are still told apart there. */
    ghost var interrupted: bool
    /** The sweep has reported exhaustion over the whole length range. */
    ghost var complete: bool

    ghost function Footprint(): set<object>
      reads this
    {
      if stage.Some? then {this, stage.value.solver} else {this}
    }

    /** Everything but the live solver's clauses. */
    ghost predicate Steady()
      reads this
    {
      && GoodProblem(problem) && 1 <= problem.min <= problem.max
      && (config.Some? ==> ConfigFor(problem.rels, config.value))
      && (forall j | 0 <= j < |blockedConfigs| :: ConfigFor(problem.rels, blockedConfigs[j]))
      && (blockedConfigs != [] ==> HasFreeStatic(problem.rels))
      && (config.None? ==> emitted == {} && emittedHere == {} && history == [])
      && KeysOf(history, emitted + emittedHere) && NoRepeats(history) && LengthsIn(history, problem.min, problem.max)
      && (current.Some? ==> Displayable(problem, current.value))
      && (current.Some? ==> WithinCap(problem, |current.value.lasso.states|))
      && (current.Some? && config.Some? ==> current.value.config == config.value)
      && (budgetSpent ==> budget.Some?)
      && (interrupted ==> !HasFreeVariable(problem.rels))
      && HistoryOk(problem, history) && problem.min <= swept <= problem.max + 1
      && (restricted ==> emitted == {})
      && (!restricted ==> CoveredBelow(problem, swept, config, blockedConfigs, history, interrupted))
      && (!restricted && !interrupted ==> EmittedBelow(history, swept, emitted))
      && (complete ==> !restricted && swept == problem.max + 1 && forall x | x in history :: x.key in emitted)
    }

    /** The live stage, given the emissions that account for what it has drawn. */
    ghost predicate StageOk(told: seq<Emission>)
      requires stage.Some?
      reads this, stage.value.solver
    {
      var s := stage.value;
      && problem.min <= s.k <= problem.max && s.solver.numVars == problem.enc(s.k).n && WithinCap(problem, s.k)
      && ShorterIn(history, s.k, emitted)
      && (!restricted ==> s.k <= swept)
      && (!restricted && !interrupted ==> EmittedAt(history, s.k, emittedHere))
      && (hold.Some? ==> restricted && |hold.value.base.states| == s.k)
      && (!s.spent ==> Sound(problem, s.k, s.solver.clauses, config, blockedConfigs, hold))
      && (!s.spent ==> Recorded(problem, s.k, s.solver.clauses, config, blockedConfigs, hold, told, interrupted))
      && (s.spent && !budgetSpent ==> Covered(problem, s.k, config, blockedConfigs, hold, told, interrupted))
    }

    ghost predicate Valid()
      reads this, Footprint()
    {
      && Steady() && (stage.Some? ==> StageOk(history)) && (stage.None? ==> hold.None?)
      && (stage.None? && !restricted && !interrupted ==> emittedHere == {})
    }

    constructor (p: Problem, effort: Option<nat>)
      requires GoodProblem(p)
      ensures Valid() && problem == p && stage.None? && current.None? && config.None? && blockedConfigs == []
      ensures history == [] && !restricted && !complete && !budgetSpent && budget == effort && !interrupted
    {
      problem := p;
      stage, current, config, blockedConfigs := None, None, None, [];
      emitted, emittedHere := {}, {};
      budget, budgetSpent, restricted := effort, false, false;
      hold, history, complete := None, [], false;
      swept, interrupted := p.min, false;
    }

    /** Starts one length afresh: the base encoding, the configuration lock, every blocked one. */
    method Install(k: nat) returns (refused: Option<Advance>)
      requires Steady() && problem.min <= k <= problem.max
      modifies `stage, `hold
      ensures hold.None? && (refused.None? <==> WithinCap(problem, k))
      ensures refused.Some? ==> stage.None? && refused.value.PrimaryVarCap? && problem.cap.Some?
      ensures refused.None? ==> stage.Some? && stage.value.k == k && !stage.value.spent && fresh(stage.value.solver)
      ensures refused.None? ==> stage.value.solver.numVars == problem.enc(k).n && forall m ::
        m in Models(problem.enc(k).n, stage.value.solver.clauses) <==> Allowed(problem, k, config, blockedConfigs, None, m)
    {
      hide Sound, Recorded, Covered, Allowed, GoodEnc, KeysOf, NoRepeats;
      hide EmittedBelow, EmittedAt, HistoryOk, Told, HasFreeVariable, PrimaryCount, SolutionVars;
      hide LengthsIn, ShorterIn, CoveredBelow, Displayable, ConfigFor, HasFreeStatic, Answers;
      hold := None;
      if problem.cap.Some? {
        var primaries := PrimaryCount(problem.rels, k);
        if primaries > problem.cap.value {
          stage := None;
          return Some(PrimaryVarCap(k, primaries));
        }
      }
      var solver := BuildSolver(problem, k, config, blockedConfigs);
      stage := Some(Stage(k, solver, false));
      return None;
    }

    /** Opens the next length of the sweep. */
    method OpenStage(k: nat) returns (refused: Option<Advance>)
      requires Steady() && problem.min <= k <= problem.max && ShorterIn(history, k, emitted)
      requires !restricted ==> k <= swept
      requires !restricted && !interrupted ==> emittedHere == {}
      modifies `stage, `hold
      ensures Valid() && hold.None?
      ensures refused.Some? ==> stage.None? && refused.value.PrimaryVarCap? && problem.cap.Some?
      ensures refused.None? ==> stage.Some? && stage.value.k == k && !stage.value.spent && fresh(stage.value.solver)
    {
      hide GoodProblem, Sound, Recorded, Covered, Allowed, GoodEnc, KeysOf, NoRepeats;
      hide EmittedBelow, EmittedAt, HistoryOk, Told, HasFreeVariable, PrimaryCount, SolutionVars;
      hide LengthsIn, ShorterIn, CoveredBelow, Displayable, ConfigFor, HasFreeStatic, Answers;
      refused := Install(k);
      if refused.None? {
        FreshStage(problem, k, stage.value.solver.clauses, config, blockedConfigs, history, interrupted);
        NothingHere(history, k);
      }
    }

    /** One solve, charged against the budget if there is one. */
    method SolveCharged(solver: LiveSolver) returns (r: Option<Outcome>)
      modifies `budget
      ensures r.None? ==> old(budget).Some?
      ensures old(budget).None? <==> budget.None?
      ensures r.Some? ==> match r.value { case IsSat(m) => m in solver.Admitted() case IsUnsat => solver.Admitted() == {} }
    {
      if budget.None? {
        var outcome := solver.Solve();
        return Some(outcome);
      }
      if budget.value == 0 { return None; }
      r := solver.SolveWithin();
      if r.Some? {
        var used: nat := *;
        budget := Some(if used <= budget.value then budget.value - used else 0);
      }
    }

    /** What drawing from the live stage changed: at most the budget, and one emission. */
    twostate predicate Drew(new r: Option<Trace>)
      requires stage.Some? && old(stage).Some?
      reads this
    {
      && stage.value.k == old(stage).value.k && stage.value.solver == old(stage).value.solver
      && hold == old(hold) && restricted == old(restricted) && blockedConfigs == old(blockedConfigs)
      && emitted == old(emitted) && complete == old(complete) && swept == old(swept) && interrupted == old(interrupted)
      && (old(budget).None? ==> budget.None?)
      && (old(complete) ==> r.None?)
      && (old(config).Some? ==> config == old(config))
      && (r.None? ==> stage.value.spent && config == old(config) && history == old(history) && current == old(current) && emittedHere == old(emittedHere))
      && (r.Some? ==> Emitted(r.value, old(config), old(history)))
    }

    /** The emission is this trace at the live length. */
    ghost predicate Shows(t: Trace, x: Emission)
      requires stage.Some?
      reads this
    {
      x.k == stage.value.k && TraceKey.Valid(t.lasso) && x.key == KeyOf(t.lasso) && t == TraceAt(problem.rels, problem.enc(x.k), x.model)
    }

    /** The trace answers the live question and is new at this length. */
    ghost predicate Emitted(t: Trace, before: Option<State>, past: seq<Emission>)
      requires stage.Some?
      reads this
    {
      && current == Some(t) && Displayable(problem, t) && |t.lasso.states| == stage.value.k
      && config == Some(t.config)
      && |history| == |past| + 1 && past <= history && Shows(t, history[|past|])
      && KeyOf(t.lasso) !in emitted
      && Answers(problem, stage.value.k, before, blockedConfigs, hold, t)
    }

    /** Solves once and blocks the model drawn; `None` when the stage or the budget is spent. */
    method Draw() returns (drawn: Option<Assignment>)
      requires Valid() && stage.Some? && !stage.value.spent
      modifies `stage, `budget, `budgetSpent, stage.value.solver
      ensures stage.Some? && stage.value.k == old(stage).value.k && stage.value.solver == old(stage).value.solver
      ensures old(budget).None? ==> budget.None?
      ensures drawn.None? ==> Valid() && stage.value.spent
      ensures drawn.Some? ==> stage == old(stage) && budgetSpent == old(budgetSpent) && Steady()
      ensures drawn.Some? ==> Allowed(problem, stage.value.k, config, blockedConfigs, hold, drawn.value)
      ensures drawn.Some? ==> |drawn.value| == problem.enc(stage.value.k).n
      ensures drawn.Some? ==> StageOk(history + [EmissionOf(problem, stage.value.k, drawn.value)])
      ensures drawn.Some? ==> |stage.value.solver.Admitted()| < old(|stage.value.solver.Admitted()|)
    {
      hide GoodProblem, Sound, Recorded, Covered, GoodEnc, KeysOf, NoRepeats;
      hide EmittedBelow, EmittedAt, HistoryOk, Told, HasFreeVariable, PrimaryCount, EmissionOf, SolutionVars;
      hide LengthsIn, ShorterIn, CoveredBelow, Displayable, ConfigFor, HasFreeStatic;
      hide Allowed, KeyAt, ClauseHolds, GoodModel, Models, Block, Consecutive, KeyOf, TraceAt, Answers, Forks;
      var k, solver := stage.value.k, stage.value.solver;
      EncShape(problem, k);
      var outcome := SolveCharged(solver);
      if outcome.None? {
        budgetSpent := true;
        stage := Some(Stage(k, solver, true));
        return None;
      }
      if outcome.value.IsUnsat? {
        DrainedCovered(problem, k, solver.clauses, config, blockedConfigs, hold, history, interrupted);
        stage := Some(Stage(k, solver, true));
        return None;
      }
      var m := outcome.value.model;
      DrawnBlocked(problem, k, solver.clauses, config, blockedConfigs, hold, history, interrupted, m);
      var clause := BlockingClause(problem, k, m);
      solver.AddClause(clause);
      drawn := Some(m);
    }

    /** Draws models until one is emittable; `None` when the stage or the budget is spent. */
    method SolveCurrentStage() returns (r: Option<Trace>)
      requires Valid() && stage.Some?
      modifies Footprint()
      ensures fresh(Footprint() - old(Footprint()))
      ensures Valid() && stage.Some? && Drew(r)
    {
      hide GoodProblem, Sound, Recorded, Covered, GoodEnc, KeysOf, NoRepeats;
      hide EmittedBelow, EmittedAt, HistoryOk, Told, HasFreeVariable, PrimaryCount, SolutionVars;
      hide LengthsIn, ShorterIn, CoveredBelow, Displayable, ConfigFor, HasFreeStatic;
      hide Allowed, Answers, GoodModel, KeyAt, KeyOf, TraceAt, ExactlyOne;
      while !stage.value.spent
        invariant Valid() && stage.Some? && stage.value.k == old(stage).value.k && stage.value.solver == old(stage).value.solver
        invariant hold == old(hold) && restricted == old(restricted) && blockedConfigs == old(blockedConfigs)
        invariant emitted == old(emitted) && complete == old(complete) && config == old(config) && history == old(history)
        invariant swept == old(swept) && interrupted == old(interrupted)
        invariant current == old(current) && emittedHere == old(emittedHere) && (old(budget).None? ==> budget.None?)
        decreases !stage.value.spent, |stage.value.solver.Admitted()|
      {
        var m := Draw();
        if m.None? { return None; }
        r := Consider(m.value);
        if r.Some? { return r; }
      }
      return None;
    }

    /** Shows a drawn solution unless its infinite trace was shown at a shorter length. */
    method Consider(m: Assignment) returns (r: Option<Trace>)
      requires Steady() && stage.Some? && !stage.value.spent && StageOk(history + [EmissionOf(problem, stage.value.k, m)])
      requires Allowed(problem, stage.value.k, config, blockedConfigs, hold, m) && |m| == problem.enc(stage.value.k).n
      modifies this, stage.value.solver
      ensures Valid() && stage == old(stage) && hold == old(hold) && restricted == old(restricted) && blockedConfigs == old(blockedConfigs)
      ensures emitted == old(emitted) && complete == old(complete) && budget == old(budget) && budgetSpent == old(budgetSpent)
      ensures swept == old(swept) && interrupted == old(interrupted)
      ensures r.Some? <==> KeyAt(problem, stage.value.k, m) !in old(emitted)
      ensures r.Some? ==> !complete && Emitted(r.value, old(config), old(history)) && history[|old(history)|].model == m
      ensures old(config).Some? ==> config == old(config)
      ensures r.None? ==> unchanged(this) && unchanged(stage.value.solver)
    {
      hide GoodProblem, Sound, Recorded, Covered, GoodEnc, KeysOf, NoRepeats;
      hide EmittedBelow, EmittedAt, HistoryOk, Told, HasFreeVariable, PrimaryCount, SolutionVars;
      hide LengthsIn, ShorterIn, CoveredBelow, Displayable, ConfigFor, HasFreeStatic;
      hide Allowed, Answers, GoodModel, KeyAt, KeyOf, TraceAt, ExactlyOne;
      ShownAnswers(problem, stage.value.k, config, blockedConfigs, hold, m);
      var t := ReadTrace(problem.enc(stage.value.k), m);
      var key := ComputeKey(t.lasso);
      if key !in emitted {
        if complete { NothingLeft(problem, stage.value.k, config, blockedConfigs, history, interrupted, emitted, m); }
        Emit(t, key, m);
        return Some(t);
      }
      Skip(m);
      return None;
    }

    /** A trace shown at a shorter length is passed over. */
    lemma Skip(m: Assignment)
      requires Steady() && stage.Some? && !stage.value.spent && StageOk(history + [EmissionOf(problem, stage.value.k, m)])
      requires Allowed(problem, stage.value.k, config, blockedConfigs, hold, m) && |m| == problem.enc(stage.value.k).n
      requires KeyAt(problem, stage.value.k, m) in emitted
      ensures StageOk(history)
    {
      hide Sound, GoodEnc, KeysOf, NoRepeats, EmittedBelow, EmittedAt, HistoryOk;
      hide LengthsIn, ShorterIn, CoveredBelow, Displayable, ConfigFor, HasFreeStatic, Recorded, Allowed, KeyAt, Told;
      var k := stage.value.k;
      EncShape(problem, k);
      EmittedTold(problem, k, swept, config, blockedConfigs, history, interrupted, emitted, emittedHere, m);
      SkipRecords(problem, k, stage.value.solver.clauses, config, blockedConfigs, hold, history, interrupted, m);
    }

    method ReadTrace(e: Enc, m: Assignment) returns (t: Trace)
      requires ExactlyOne(m, e.next, e.k)
      ensures t == TraceAt(problem.rels, e, m)
    {
      var flat := DecodeLoop(e.layout, m);
      var loop := RecoverLoopState(m, e.next, e.k);
      var config := ReadConfig(problem.rels, flat);
      var states := ReadStates(problem.rels, e.k, flat);
      t := Trace(config, Lasso(states, loop));
    }

    /** Records an emission; the first of a sweep fixes its configuration, for this stage too. */
    method Emit(t: Trace, key: Key, ghost m: Assignment)
      requires stage.Some? && !stage.value.spent && Steady() && StageOk(history + [EmissionOf(problem, stage.value.k, m)])
      requires Displayable(problem, t) && |t.lasso.states| == stage.value.k && t == TraceAt(problem.rels, problem.enc(stage.value.k), m)
      requires key !in emitted && key == KeyOf(t.lasso) == KeyAt(problem, stage.value.k, m) && !complete
      requires Answers(problem, stage.value.k, config, blockedConfigs, hold, t) && ConfigFor(problem.rels, t.config)
      requires config.Some? ==> t.config == config.value
      modifies this, stage.value.solver
      ensures Valid() && stage == old(stage) && hold == old(hold) && restricted == old(restricted) && blockedConfigs == old(blockedConfigs)
      ensures emitted == old(emitted) && complete == old(complete) && budget == old(budget) && budgetSpent == old(budgetSpent)
      ensures swept == old(swept) && interrupted == old(interrupted)
      ensures old(config).Some? ==> config == old(config)
      ensures Emitted(t, old(config), old(history)) && history[|old(history)|].model == m
    {
      hide GoodProblem, Sound, Recorded, Covered, GoodEnc, KeysOf, NoRepeats;
      hide EmittedBelow, EmittedAt, HistoryOk, Told, HasFreeVariable, PrimaryCount, SolutionVars;
      hide LengthsIn, ShorterIn, CoveredBelow, Displayable, ConfigFor, HasFreeStatic;
      hide Allowed, Answers, GoodModel;
      ghost var x := EmissionOf(problem, stage.value.k, m);
      HistoryNext(problem, history, emitted, emittedHere, stage.value.k, m, problem.min, problem.max);
      PlacesNext(history, emitted, emittedHere, swept, x);
      if !restricted {
        BelowGrows(problem, swept, config, blockedConfigs, history, interrupted, history + [x], interrupted);
      }
      emittedHere := emittedHere + {key};
      history := history + [x];
      current := Some(t);
      if config.None? {
        Adopt(t.config);
      }
    }

    method Adopt(c: State)
      requires stage.Some? && !stage.value.spent && config.None? && ConfigFor(problem.rels, c)
      requires GoodProblem(problem) && StageOk(history)
      modifies `config, stage.value.solver
      ensures config == Some(c) && StageOk(history)
      ensures old(CoveredBelow(problem, swept, None, blockedConfigs, history, interrupted))
        ==> CoveredBelow(problem, swept, config, blockedConfigs, history, interrupted)
    {
      var k, solver := stage.value.k, stage.value.solver;
      var e := problem.enc(k);
      ghost var cs := solver.clauses;
      config := Some(c);
      LockConfig(solver, problem.rels, e, c);
      AdoptStage(problem, k, cs, solver.clauses, c, blockedConfigs, hold, history, interrupted);
      AdoptBelow(problem, swept, c, blockedConfigs, history, interrupted);
    }

    // ---------------------------------------------------------------- the three operators

    /** What a further trace means: it answers the live question, keeps the configuration, and its infinite
        trace was not emitted at any shorter length. */
    twostate predicate Further(t: Trace)
      reads this
    {
      && stage.Some? && current == Some(t) && Displayable(problem, t) && |t.lasso.states| == stage.value.k
      && config == Some(t.config)
      && KeyOf(t.lasso) !in emitted && ShorterIn(history, stage.value.k, emitted)
      && Answers(problem, stage.value.k, old(config), blockedConfigs, hold, t)
    }

    /** How a search for the next path may end. */
    twostate predicate Ended(new r: Advance)
      reads this
    {
      && !r.SameConfig?
      && (old(config).Some? ==> config == old(config))
      && (r.BudgetExhausted? ==> budgetSpent)
      && (old(budget).None? ==> !r.BudgetExhausted?)
      && (r.PrimaryVarCap? ==> problem.cap.Some?)
      && (r.Shown? ==> Further(r.trace) && |history| == |old(history)| + 1 && old(history) <= history && Shows(r.trace, history[|old(history)|]))
      && (!r.Shown? ==> history == old(history) && current == old(current) && config == old(config))
      && (r.Shown? && old(hold).Some? ==> hold == old(hold))
      && (r.Exhausted? ==> stage.None? && (!restricted ==> complete))
      && (r.Exhausted? && old(hold).Some? ==>
            Covered(problem, |old(hold).value.base.states|, config, blockedConfigs, old(hold), history, interrupted))
      && (r.Exhausted? && !restricted ==> CoveredBelow(problem, problem.max + 1, config, blockedConfigs, history, interrupted))
      && (old(complete) ==> !r.Shown?)
      && (r.Shown? && old(stage).None? && stage.value.k > problem.min ==> KeyOf(r.trace.lasso) !in old(emitted + emittedHere))
    }

    /** "New": the next path of the current configuration, through the length range. */
    method NextPathStep() returns (r: Advance)
      requires Valid() && !budgetSpent
      modifies Footprint()
      ensures fresh(Footprint() - old(Footprint()))
      ensures Valid() && blockedConfigs == old(blockedConfigs) && restricted == old(restricted) && interrupted == old(interrupted)
      ensures (old(budget).None? ==> budget.None?) && (old(complete) ==> complete)
      ensures Ended(r)
    {
      hide GoodProblem, Sound, Recorded, Covered, GoodEnc, KeysOf;
      hide EmittedBelow, EmittedAt, HistoryOk, Told, HasFreeVariable, PrimaryCount, SolutionVars;
      hide NoRepeats, LengthsIn, ShorterIn, CoveredBelow, ConfigFor, HasFreeStatic;
      hide Allowed, Answers, GoodModel, KeyOf, Models, VarState;
      while true
        invariant Valid() && blockedConfigs == old(blockedConfigs) && restricted == old(restricted) && config == old(config)
        invariant history == old(history) && current == old(current) && !budgetSpent && interrupted == old(interrupted)
        invariant (old(budget).None? ==> budget.None?) && (old(complete) ==> complete)
        invariant fresh(Footprint() - old(Footprint())) && old(emitted + emittedHere) <= emitted + emittedHere
        invariant old(stage).None? && stage.Some? && stage.value.k > problem.min ==> old(emitted + emittedHere) <= emitted
        invariant (hold == old(hold) && stage == old(stage)) || (hold.None? && old(hold).None? && stage.Some? && fresh(stage.value.solver))
        decreases if stage.None? then problem.max + 2 else problem.max + 1 - stage.value.k
      {
        if stage.None? {
          StartsShort(problem, history, emitted);
          var refused := OpenStage(problem.min);
          if refused.Some? { return refused.value; }
        }
        var ended := StageStep();
        if ended.Some? { return ended.value; }
      }
    }

    /** One stage: a trace, the end of the search, or the next length opened. */
    method StageStep() returns (r: Option<Advance>)
      requires Valid() && stage.Some? && !budgetSpent
      modifies Footprint()
      ensures fresh(Footprint() - old(Footprint()))
      ensures Valid() && blockedConfigs == old(blockedConfigs) && restricted == old(restricted) && interrupted == old(interrupted)
      ensures (old(budget).None? ==> budget.None?) && (old(complete) ==> complete)
      ensures r.Some? ==> Ended(r.value)
      ensures r.None? ==> stage.Some? && stage.value.k == old(stage).value.k + 1 && fresh(stage.value.solver) && hold.None? && old(hold).None?
      ensures r.None? ==> history == old(history) && current == old(current) && config == old(config) && !budgetSpent
      ensures r.None? ==> emitted == old(emitted + emittedHere) && emittedHere == {}
      ensures r.Some? && r.value.Shown? ==> stage.value.k == old(stage).value.k && emitted == old(emitted)
    {
      hide GoodProblem, Sound, Recorded, Covered, GoodEnc, KeysOf;
      hide EmittedBelow, EmittedAt, HistoryOk, Told, HasFreeVariable, PrimaryCount, SolutionVars;
      hide NoRepeats, LengthsIn, ShorterIn, CoveredBelow, ConfigFor, HasFreeStatic;
      hide Allowed, Answers, GoodModel, KeyOf, Models, VarState;
      var t := SolveCurrentStage();
      if t.Some? { return Some(Shown(t.value)); }
      if budgetSpent { return Some(BudgetExhausted); }
      if restricted {
        stage := None;
        hold := None;
        return Some(Exhausted);
      }
      r := NextLength();
    }

    /** Turns a spent length's traces into the shorter ones, and opens the next length. */
    method NextLength() returns (ended: Option<Advance>)
      requires Valid() && stage.Some? && stage.value.spent && !budgetSpent && !restricted
      modifies `stage, `hold, `emitted, `emittedHere, `swept, `complete
      ensures Valid() && hold.None? && (old(complete) ==> complete)
      ensures emitted == old(emitted + emittedHere) && emittedHere == {}
      ensures ended.None? ==> stage.Some? && stage.value.k == old(stage).value.k + 1 && fresh(stage.value.solver)
      ensures ended.Some? ==> stage.None? && ((ended.value.Exhausted? && complete) || (ended.value.PrimaryVarCap? && problem.cap.Some?))
    {
      hide GoodProblem, Sound, Recorded, Covered, GoodEnc, KeysOf, NoRepeats;
      hide EmittedBelow, EmittedAt, HistoryOk, Told, HasFreeVariable, PrimaryCount, SolutionVars;
      hide LengthsIn, ShorterIn, CoveredBelow, Displayable, ConfigFor, HasFreeStatic;
      hide Allowed, Models, GoodModel;
      var next := stage.value.k + 1;
      Merged(problem, stage.value.k, swept, config, blockedConfigs, history, interrupted, emitted, emittedHere);
      swept := SweptAfter(swept, stage.value.k);
      emitted := emitted + emittedHere;
      emittedHere := {};
      assert emitted + emittedHere == emitted;
      if next > problem.max {
        stage := None;
        complete := true;
        return Some(Exhausted);
      }
      ended := OpenStage(next);
    }

    /** "New Config": block the current static assignment and restart the sweep. */
    method NextConfigStep() returns (r: Advance)
      requires Valid() && !budgetSpent
      modifies Footprint()
      ensures fresh(Footprint() - old(Footprint()))
      ensures Valid()
      ensures r.SameConfig? <==> old(config).Some? && !HasFreeStatic(problem.rels)
      ensures r.SameConfig? ==> current == old(current) && config == old(config) && blockedConfigs == old(blockedConfigs)
      ensures old(config).Some? && !r.SameConfig? ==> blockedConfigs == old(blockedConfigs) + [old(config).value] && !restricted
      ensures old(config).None? ==> blockedConfigs == old(blockedConfigs)
      ensures r.Shown? ==> current == Some(r.trace) && config == Some(r.trace.config) && r.trace.config !in blockedConfigs
      ensures r.Exhausted? && old(config).Some? ==> EveryConfigVisited(problem, blockedConfigs)
      ensures old(budget).None? ==> budget.None? && !r.BudgetExhausted?
    {
      hide GoodProblem, Sound, Recorded, Covered, GoodEnc, NoRepeats, LengthsIn;
      hide EmittedBelow, EmittedAt, HistoryOk, Told, HasFreeVariable, PrimaryCount, SolutionVars;
      hide ShorterIn, ConfigFor, HasFreeStatic, KeysOf, CoveredBelow, Displayable, EveryConfigVisited;
      hide Allowed, Answers, GoodModel, KeyOf, Models, VarState;
      if config.None? {
        r := NextPathStep();
        if r.Shown? { FreshConfig(problem, stage.value.k, old(config), blockedConfigs, hold, r.trace); }
        return;
      }
      if !HasFreeStatic(problem.rels) {
        return SameConfig;
      }
      StartSweep();
      r := NextPathStep();
      if r.Shown? { FreshConfig(problem, stage.value.k, None, blockedConfigs, hold, r.trace); }
      if r.Exhausted? { VisitedAll(problem, blockedConfigs, interrupted); }
    }

    /** Blocks the configuration on display and forgets the sweep. */
    method StartSweep()
      requires Valid() && config.Some? && HasFreeStatic(problem.rels)
      modifies `blockedConfigs, `config, `stage, `hold, `restricted, `emitted, `emittedHere, `history, `swept, `interrupted, `complete
      ensures Valid() && blockedConfigs == old(blockedConfigs) + [old(config).value] && !restricted
      ensures config.None? && stage.None? && history == [] && !complete && !interrupted
    {
      hide GoodProblem, ConfigFor, HasFreeStatic, Displayable;
      blockedConfigs := blockedConfigs + [config.value];
      ForgetSweep();
    }

    method ForgetSweep()
      requires GoodProblem(problem) && 1 <= problem.min <= problem.max && HasFreeStatic(problem.rels)
      requires (forall j | 0 <= j < |blockedConfigs| :: ConfigFor(problem.rels, blockedConfigs[j]))
      requires current.Some? ==> Displayable(problem, current.value) && WithinCap(problem, |current.value.lasso.states|)
      requires (budgetSpent ==> budget.Some?)
      modifies `config, `stage, `hold, `restricted, `emitted, `emittedHere, `history, `swept, `interrupted, `complete
      ensures Valid() && !restricted && config.None? && stage.None? && history == [] && !complete && !interrupted
    {
      hide GoodProblem, Sound, Recorded, Covered, GoodEnc, NoRepeats, LengthsIn, ShorterIn;
      hide ConfigFor, HasFreeStatic, Models, VarState, KeysOf, CoveredBelow, Displayable;
      hide EmittedBelow, EmittedAt, HistoryOk, Told, HasFreeVariable, PrimaryCount, SolutionVars;
      EmptyHistory(problem);
      config, stage, hold, restricted := None, None, None, false;
      emitted, emittedHere, history, complete := {}, {}, [], false;
      swept, interrupted := problem.min, false;
      NothingSwept(problem, config, blockedConfigs, history, interrupted);
      assert emitted + emittedHere == {};
    }

    /** "New Init" and "New Fork": hold the leading states, force the next one to differ. */
    method ForkStep(upto: nat) returns (r: Advance)
      requires Valid() && !budgetSpent
      modifies Footprint()
      ensures fresh(Footprint() - old(Footprint()))
      ensures Valid() && blockedConfigs == old(blockedConfigs)
      ensures old(config).Some? ==> config == old(config)
      ensures old(budget).None? ==> budget.None? && !r.BudgetExhausted?
      ensures old(current).Some? && r.Shown? ==>
        (upto < |old(current).value.lasso.states| && current == Some(r.trace) && restricted
         && hold == Some(Hold(old(current).value.lasso, upto)) && Forks(r.trace.lasso, hold.value))
      ensures old(current).Some? && r.Exhausted? && upto < |old(current).value.lasso.states| ==>
        NoFork(problem, config, blockedConfigs, Hold(old(current).value.lasso, upto))
      ensures old(current).Some? ==> !r.PrimaryVarCap?
      ensures old(current).Some? && upto < |old(current).value.lasso.states| && !HasFreeVariable(problem.rels) ==> LeftVacuously(r)
    {
      hide GoodProblem, Sound, Recorded, Covered, GoodEnc, NoRepeats, LengthsIn, ShorterIn, CoveredBelow, ConfigFor, HasFreeStatic;
      hide EmittedBelow, EmittedAt, HistoryOk, Told, HasFreeVariable, PrimaryCount, SolutionVars;
      hide Allowed, Answers, GoodModel, KeyOf, Models, VarState, LassoAt, Forks, NoFork;
      if current.None? {
        r := NextPathStep();
        return;
      }
      if upto >= |current.value.lasso.states| {
        return Exhausted;
      }
      ghost var h := Hold(current.value.lasso, upto);
      var refused := OpenFork(upto);
      if refused.Some? { return refused.value; }
      var t := SolveCurrentStage();
      if t.Some? {
        ForkShown(problem, stage.value.k, old(config), blockedConfigs, h, t.value);
        return Shown(t.value);
      }
      if budgetSpent { return BudgetExhausted; }
      NoneCovered(problem, config, blockedConfigs, h, interrupted);
      return Exhausted;
    }

    /** A fork that can change nothing drops the live stage and keeps everything else. */
    twostate predicate LeftVacuously(new r: Advance)
      reads this
    {
      && r.Exhausted? && stage.None? && current == old(current) && config == old(config) && history == old(history)
      && emitted == old(emitted) && emittedHere == old(emittedHere) && restricted == old(restricted) && budget == old(budget)
      && budgetSpent == old(budgetSpent) && complete == old(complete)
    }

    /** Opens the displayed trace's length again, with the fork's constraints, as a question of its own. */
    method OpenFork(upto: nat) returns (refused: Option<Advance>)
      requires Valid() && current.Some? && upto < |current.value.lasso.states| && !budgetSpent
      modifies `stage, `hold, `emitted, `emittedHere, `history, `swept, `interrupted, `complete, `restricted
      ensures Valid() && (refused.None? ==> stage.Some? && !stage.value.spent && fresh(stage.value.solver))
      ensures var h := Hold(current.value.lasso, upto);
        match refused
        case None => hold == Some(h) && restricted && emitted == {} && emittedHere == {} && history == [] && HasFreeVariable(problem.rels)
        case Some(a) => LeftVacuously(a) && !HasFreeVariable(problem.rels) && NoFork(problem, config, blockedConfigs, h)
    {
      hide GoodProblem, Sound, Recorded, Covered, GoodEnc, NoRepeats, LengthsIn, ShorterIn, CoveredBelow, ConfigFor, HasFreeStatic;
      hide EmittedBelow, EmittedAt, HistoryOk, Told, HasFreeVariable, PrimaryCount, SolutionVars;
      hide Allowed, Answers, GoodModel, KeyOf, Models, VarState, LassoAt, Forks, NoFork, KeysOf;
      var base := current.value.lasso;
      refused := Install(|base.states|);
      if refused.Some? { return; }
      var differ := HoldAndDiffer(problem, stage.value.solver, config, blockedConfigs, base, upto);
      if differ == [] {
        stage := None;
        Interrupt();
        return Some(Exhausted);
      }
      BeginFork(Hold(base, upto));
    }

    /** The fork's own history starts empty. */
    method BeginFork(h: Hold)
      requires Steady() && current.Some? && stage.Some? && !stage.value.spent
      requires problem.min <= stage.value.k <= problem.max && stage.value.k == |h.base.states|
      requires stage.value.solver.numVars == problem.enc(stage.value.k).n && WithinCap(problem, stage.value.k)
      requires Sound(problem, stage.value.k, stage.value.solver.clauses, config, blockedConfigs, Some(h))
      requires Recorded(problem, stage.value.k, stage.value.solver.clauses, config, blockedConfigs, Some(h), [], false)
      modifies `hold, `emitted, `emittedHere, `history, `interrupted, `complete, `restricted
      ensures Valid() && hold == Some(h) && restricted && emitted == {} && emittedHere == {} && history == []
    {
      hide GoodProblem, Sound, Recorded, Covered, GoodEnc, NoRepeats, LengthsIn;
      hide EmittedBelow, EmittedAt, HistoryOk, Told, HasFreeVariable, PrimaryCount, SolutionVars;
      hide ShorterIn, CoveredBelow, ConfigFor, HasFreeStatic, KeysOf, Models;
      hide Displayable, Answers, Allowed, GoodModel, KeyOf, KeyAt, TraceAt, Forks;
      EmptyHistory(problem);
      emitted, emittedHere, history, complete := {}, {}, [], false;
      restricted := true;
      interrupted := false;
      hold := Some(h);
      assert emitted + emittedHere == {};
    }

    /** The live stage is dropped with its keys still set apart: from here on the sweep takes them for keys of
        shorter lengths. */
    ghost method Interrupt()
      requires Steady() && stage.None? && hold.None? && !HasFreeVariable(problem.rels)
      modifies `interrupted
      ensures Valid() && interrupted == (old(interrupted) || (!restricted && emittedHere != {}))
    {
      if !restricted && emittedHere != {} {
        BelowGrows(problem, swept, config, blockedConfigs, history, interrupted, history, true);
        interrupted := true;
      }
    }

    /** Performs one exploration command. */
    method Explore(step: Step) returns (r: Advance)
      requires Valid()
      modifies Footprint()
      ensures fresh(Footprint() - old(Footprint()))
      ensures Valid()
      ensures old(budgetSpent) ==> r == BudgetExhausted && unchanged(this)
      ensures budgetSpent ==> budget.Some?
      ensures step.NextPath? && !old(budgetSpent) ==>
        blockedConfigs == old(blockedConfigs) && restricted == old(restricted) && interrupted == old(interrupted)
        && (old(complete) ==> complete) && Ended(r)
      ensures step.NextConfig? && !old(budgetSpent) ==>
        && (r.SameConfig? <==> old(config).Some? && !HasFreeStatic(problem.rels))
        && (r.SameConfig? ==> current == old(current) && config == old(config) && blockedConfigs == old(blockedConfigs))
        && (old(config).Some? && !r.SameConfig? ==> blockedConfigs == old(blockedConfigs) + [old(config).value] && !restricted)
        && (r.Shown? ==> current == Some(r.trace) && config == Some(r.trace.config) && r.trace.config !in blockedConfigs)
        && (r.Exhausted? && old(config).Some? ==> EveryConfigVisited(problem, blockedConfigs))
      ensures step.Fork? && !old(budgetSpent) ==>
        && blockedConfigs == old(blockedConfigs) && (old(config).Some? ==> config == old(config))
        && (old(current).Some? && r.Shown? ==>
              step.upto < |old(current).value.lasso.states| && current == Some(r.trace) && restricted
              && hold == Some(Hold(old(current).value.lasso, step.upto)) && Forks(r.trace.lasso, hold.value))
        && (old(current).Some? && r.Exhausted? && step.upto < |old(current).value.lasso.states| ==>
              NoFork(problem, config, blockedConfigs, Hold(old(current).value.lasso, step.upto)))
        && (old(current).Some? ==> !r.PrimaryVarCap?)
        && (old(current).Some? && step.upto < |old(current).value.lasso.states| && !HasFreeVariable(problem.rels) ==> LeftVacuously(r))
      ensures old(budget).None? ==> budget.None? && !budgetSpent
    {
      if budgetSpent {
        return BudgetExhausted;
      }
      match step
      case NextPath => r := NextPathStep();
      case NextConfig => r := NextConfigStep();
      case Fork(upto) => r := ForkStep(upto);
    }
  }
}
