/** A temporal command's encodings: unroll, allocate the primaries, mint the lasso selector, add the goal
    (crates/als-core/src/solve.rs, crates/als-core/src/temporal_enum.rs). The goal's own clauses are
    arbitrary, over any of the variables and any number of auxiliaries. */
module TemporalProblem {
  import opened Wrappers
  import opened Algebra
  import opened LexOrder
  import opened Folder
  import opened Sat
  import opened Decoding
  import opened Enumeration
  import opened LassoMachinery
  import opened Unrolling
  import opened Traces

  datatype TemporalGoal = TemporalGoal(skolems: seq<RelBound>, clauses: seq<Clause>, aux: nat)

  predicate GoodGoal(g: TemporalGoal) {
    forall j | 0 <= j < |g.skolems| :: g.skolems[j].lower <= g.skolems[j].upper
  }

  function SkolemBounds(g: TemporalGoal): Bounds {
    seq(|g.skolems|, j requires 0 <= j < |g.skolems| => (Skolem(j), g.skolems[j]))
  }

  function FlatBounds(rels: Model, k: nat, g: TemporalGoal): Bounds {
    Unrolled(rels, k) + SkolemBounds(g)
  }

  function Encode(rels: Model, k: nat, g: TemporalGoal): Enc {
    var (layout, next) := Layout(FlatBounds(rels, k, g), 0);
    Enc(k, layout, next, next + k + g.aux, SelectorClauses(next, k) + g.clauses)
  }

  /** Translates one trace length: unrolls, allocates the primaries, then mints the selector. */
  method Translate(rels: Model, k: nat, g: TemporalGoal) returns (e: Enc)
    ensures e == Encode(rels, k, g)
  {
    var unrolled := Unroll(rels, k);
    var layout, primary, next := AllocatePrimaries(unrolled + SkolemBounds(g), 0);
    var selector := MintSelector(next, k);
    e := Enc(k, layout, next, next + k + g.aux, selector + g.clauses);
  }

  lemma FlatGood(rels: Model, k: nat, g: TemporalGoal)
    requires GoodModel(rels) && GoodGoal(g)
    ensures GoodBounds(FlatBounds(rels, k, g))
  {
    UnrolledGood(rels, k);
    forall e, f | e in Unrolled(rels, k) && f in SkolemBounds(g)
      ensures e.0 != f.0
    {
      InUnrolled(rels, k, e);
    }
    DistinctJoin(Unrolled(rels, k), SkolemBounds(g));
  }

  /** One relation's entry decodes to exactly the values between its bounds. */
  lemma EntryGood(b: (RelKey, RelBound), start: SatVar, n: nat)
    requires b.1.lower <= b.1.upper && start + |RelLayout(b, start).floating| <= n
    ensures GoodDecode(RelLayout(b, start), n) && DecodesBound(RelLayout(b, start), b.1)
  {
    var d := RelLayout(b, start);
    var ts := Sorted(b.1.upper - b.1.lower);
    SortedInOrder(b.1.upper - b.1.lower);
    forall a | 0 <= a < |d.floating| ensures d.floating[a].0 in b.1.upper && d.floating[a].0 !in b.1.lower { assert ts[a] in ts; }
    forall value
      ensures Fits(d, value) <==> b.1.lower <= value <= b.1.upper
    {
      if b.1.lower <= value <= b.1.upper {
        forall t | t in value && t !in d.lower
          ensures exists a :: 0 <= a < |d.floating| && d.floating[a].0 == t
        {
          var x := FloatingIndex(b, start, t);
        }
      }
      if Fits(d, value) {
        forall t | t in value ensures t in b.1.upper {
          if t !in d.lower { var a :| 0 <= a < |d.floating| && d.floating[a].0 == t; }
        }
      }
    }
  }

  lemma EncodeBinds(rels: Model, k: nat, g: TemporalGoal, b: (RelKey, RelBound))
    requires GoodModel(rels) && GoodGoal(g) && b in Unrolled(rels, k)
    ensures Traces.Binds(Encode(rels, k, g), b.0, b.1)
  {
    var bounds := FlatBounds(rels, k, g);
    FlatGood(rels, k, g);
    var x :| 0 <= x < |Unrolled(rels, k)| && Unrolled(rels, k)[x] == b;
    assert bounds[x] == b;
    StartBefore(bounds, 0, x);
    EntryGood(b, StartOf(bounds, 0, x), Layout(bounds, 0).1);
    assert Encode(rels, k, g).layout[x] == RelLayout(b, StartOf(bounds, 0, x));
  }

  /** Every encoding built this way is one the enumerator can rely on. */
  lemma EncodeGood(rels: Model, k: nat, g: TemporalGoal)
    requires GoodModel(rels) && GoodGoal(g)
    ensures GoodEnc(rels, k, Encode(rels, k, g))
  {
    var bounds := FlatBounds(rels, k, g);
    var e := Encode(rels, k, g);
    FlatGood(rels, k, g);
    LayoutKeys(bounds, 0);
    LayoutProjects(bounds);
    forall j | 0 <= j < |e.layout|
      ensures GoodDecode(e.layout[j], e.next)
    {
      StartBefore(bounds, 0, j);
      EntryGood(bounds[j], StartOf(bounds, 0, j), e.next);
    }
    forall r | r in rels && !r.variable
      ensures Traces.Binds(e, Static(r.id), r.bound)
    {
      InUnrolled(rels, k, (Static(r.id), r.bound));
      EncodeBinds(rels, k, g, (Static(r.id), r.bound));
    }
    forall r, s: nat | r in rels && r.variable && s < k
      ensures Traces.Binds(e, Copy(r.id, s), r.bound)
    {
      assert IsCopy(rels, k, (Copy(r.id, s), r.bound));
      InUnrolled(rels, k, (Copy(r.id, s), r.bound));
      EncodeBinds(rels, k, g, (Copy(r.id, s), r.bound));
    }
    forall m | m in Models(e.n, e.base)
      ensures ExactlyOne(m, e.next, k)
    {
      SatisfiesJoin(m, SelectorClauses(e.next, k), g.clauses);
      SelectorExact(m, e.next, k);
    }
  }

  /** An assignment satisfies an encoding exactly when it picks one loop target and satisfies the goal. */
  lemma EncodeAsks(rels: Model, k: nat, g: TemporalGoal, m: Assignment)
    ensures var e := Encode(rels, k, g);
      m in Models(e.n, e.base) <==> |m| == e.n && ExactlyOne(m, e.next, k) && Satisfies(m, g.clauses)
  {
    var e := Encode(rels, k, g);
    SatisfiesJoin(m, SelectorClauses(e.next, k), g.clauses);
    if |m| == e.n { SelectorExact(m, e.next, k); }
  }

  /** Sweeping these lengths for a goal. */
  function ProblemOf(rels: Model, goal: nat -> TemporalGoal, min: nat, max: nat, cap: Option<nat>): Problem {
    Problem(rels, min, max, (k: nat) => Encode(rels, k, goal(k)), cap)
  }

  /** Every goal over a good model is a problem the enumerator accepts. */
  lemma ProblemOfGood(rels: Model, goal: nat -> TemporalGoal, min: nat, max: nat, cap: Option<nat>)
    requires GoodModel(rels) && 1 <= min <= max && forall k: nat :: GoodGoal(goal(k))
    ensures GoodProblem(ProblemOf(rels, goal, min, max, cap))
  {
    forall k: nat | k >= 1
      ensures GoodEnc(rels, k, ProblemOf(rels, goal, min, max, cap).enc(k))
    {
      EncodeGood(rels, k, goal(k));
    }
  }

  function Unconstrained(): TemporalGoal {
    TemporalGoal([], [], 0)
  }

  /** Without a goal, every sequence of states inside the bounds that agrees on the statics, with any loop
      target, is a solution of its length. */
  lemma FreeSolutions(rels: Model, states: seq<TraceState>, loop: nat) returns (m: Assignment)
    requires GoodModel(rels) && loop < |states|
    requires SameStatics(rels, states) && forall s | 0 <= s < |states| :: StateInside(rels, states[s])
    ensures var e := Encode(rels, |states|, Unconstrained());
      && m in Models(e.n, e.base) && LoopOf(m, e.next, e.k) == loop
      && Split(rels, |states|, Decode(e.layout, m)) == states
  {
    SplitOnto(rels, states);
    m := FreeDecode(rels, |states|, JoinStates(rels, states), loop);
  }

  lemma FreeDecode(rels: Model, k: nat, flat: Instance, loop: nat) returns (m: Assignment)
    requires GoodModel(rels) && loop < k && FlatInside(rels, k, flat)
    ensures var e := Encode(rels, k, Unconstrained());
      m in Models(e.n, e.base) && Decode(e.layout, m) == flat && LoopOf(m, e.next, k) == loop
  {
    var bounds := FlatBounds(rels, k, Unconstrained());
    assert bounds == Unrolled(rels, k);
    UnrolledGood(rels, k);
    FlatInsideUnrolled(rels, k, flat);
    var next := Layout(bounds, 0).1;
    var head := DecodeOnto(bounds, 0, flat, next);
    m := head + LoopTail(k, loop);
    TailLoop(head, k, loop);
    DecodeInjective(bounds, 0, head, m);
    FreeModel(m, next, k, loop);
  }

  lemma FreeModel(m: Assignment, next: nat, k: nat, loop: nat)
    requires |m| == next + k && OnlyLoop(m, next, k, loop)
    ensures m in Models(next + k + 0, SelectorClauses(next, k) + []) && LoopOf(m, next, k) == loop
  {
    LoopUnique(m, next, k, loop);
    SelectorExact(m, next, k);
    SatisfiesJoin(m, SelectorClauses(next, k), []);
  }

  function LoopTail(k: nat, loop: nat): Assignment {
    seq(k, s requires 0 <= s < k => s == loop)
  }

  lemma TailLoop(head: Assignment, k: nat, loop: nat)
    requires loop < k
    ensures OnlyLoop(head + LoopTail(k, loop), |head|, k, loop)
    ensures SameValues(head, head + LoopTail(k, loop), 0, |head|)
  {
  }

  type TraceState = map<nat, TupleSet>
}
