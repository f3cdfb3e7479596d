/** One trace length of a temporal command: its encoding, what an assignment of it shows, and the clauses
    that hold, exclude or change parts of it (crates/als-core/src/temporal_enum.rs). */
module Traces {
  import opened Wrappers
  import opened Algebra
  import opened Folder
  import opened Sat
  import opened Decoding
  import opened Enumeration
  import opened LassoMachinery
  import opened TraceKey
  import opened Unrolling

  /** One length's CNF: the decode layout over variables below `next`, then the `k` loop variables, then
      auxiliaries up to `n`. */
  datatype Enc = Enc(k: nat, layout: seq<RelDecode>, next: nat, n: nat, base: seq<Clause>)

  /** A temporal command: the model's relations, the trace lengths asked for, and the encoding of each. */
  datatype Problem = Problem(rels: Model, min: nat, max: nat, enc: nat -> Enc, cap: Option<nat>)

  // ------------------------------------------------------------------ fixing and changing a relation

  ghost predicate GoodDecode(d: RelDecode, n: nat) {
    && (forall a, b | 0 <= a < b < |d.floating| :: d.floating[a].0 != d.floating[b].0)
    && forall a | 0 <= a < |d.floating| :: d.floating[a].0 !in d.lower && d.floating[a].1 < n
  }

  ghost predicate Fits(d: RelDecode, value: TupleSet) {
    d.lower <= value && forall t | t in value && t !in d.lower :: exists a :: 0 <= a < |d.floating| && d.floating[a].0 == t
  }

  function Units(d: RelDecode, value: TupleSet): seq<Clause> {
    seq(|d.floating|, j requires 0 <= j < |d.floating| => [Lit(d.floating[j].1, d.floating[j].0 in value)])
  }

  function Differs(d: RelDecode, value: TupleSet): Clause {
    seq(|d.floating|, j requires 0 <= j < |d.floating| => Lit(d.floating[j].1, d.floating[j].0 !in value))
  }

  ghost predicate Agrees(d: RelDecode, value: TupleSet, m: Assignment) {
    forall j | 0 <= j < |d.floating| :: Value(m, d.floating[j].1) <==> d.floating[j].0 in value
  }

  lemma AgreesExact(d: RelDecode, value: TupleSet, m: Assignment)
    requires GoodDecode(d, |m|) && Fits(d, value)
    ensures Agrees(d, value, m) <==> DecodeRel(d, m) == value
  {
    forall j | 0 <= j < |d.floating|
      ensures d.floating[j].0 in DecodeRel(d, m) <==> Value(m, d.floating[j].1)
    {
      if d.floating[j].0 in DecodeRel(d, m) {
        var x :| 0 <= x < |d.floating| && Value(m, d.floating[x].1) && d.floating[x].0 == d.floating[j].0;
        assert !(x < j) && !(j < x);
      }
    }
    if Agrees(d, value, m) {
      forall t ensures t in DecodeRel(d, m) <==> t in value {
        if t in value && t !in d.lower {
          var a :| 0 <= a < |d.floating| && d.floating[a].0 == t;
        }
      }
    }
  }

  /** The unit clauses fix the relation to exactly the value. */
  lemma UnitsExact(d: RelDecode, value: TupleSet, m: Assignment)
    requires GoodDecode(d, |m|) && Fits(d, value)
    ensures Satisfies(m, Units(d, value)) <==> DecodeRel(d, m) == value
  {
    AgreesExact(d, value, m);
    forall j | 0 <= j < |d.floating|
      ensures ClauseHolds(m, Units(d, value)[j]) <==> (Value(m, d.floating[j].1) <==> d.floating[j].0 in value)
    {
      var c := Units(d, value)[j];
      assert ClauseHolds(m, c) <==> LitHolds(m, c[0]);
    }
  }

  /** The disjunction says the relation is not the value. */
  lemma DiffersExact(d: RelDecode, value: TupleSet, m: Assignment)
    requires GoodDecode(d, |m|) && Fits(d, value)
    ensures ClauseHolds(m, Differs(d, value)) <==> DecodeRel(d, m) != value
  {
    AgreesExact(d, value, m);
    var c := Differs(d, value);
    forall j | 0 <= j < |d.floating|
      ensures LitHolds(m, c[j]) <==> !(Value(m, d.floating[j].1) <==> d.floating[j].0 in value)
    {
    }
    if !Agrees(d, value, m) {
      var j :| 0 <= j < |d.floating| && !(Value(m, d.floating[j].1) <==> d.floating[j].0 in value);
      assert LitHolds(m, c[j]);
    }
  }

  lemma ClauseJoin(m: Assignment, a: Clause, b: Clause)
    ensures ClauseHolds(m, a + b) <==> ClauseHolds(m, a) || ClauseHolds(m, b)
  {
    if j :| 0 <= j < |a| && LitHolds(m, a[j]) { assert (a + b)[j] == a[j]; }
    if j :| 0 <= j < |b| && LitHolds(m, b[j]) { assert (a + b)[|a| + j] == b[j]; }
  }

  // ------------------------------------------------------------------ a good encoding

  ghost predicate Binds(e: Enc, key: RelKey, bound: RelBound) {
    exists j :: 0 <= j < |e.layout| && e.layout[j].key == key && DecodesBound(e.layout[j], bound)
  }

  ghost predicate DecodesBound(d: RelDecode, bound: RelBound) {
    forall value :: Fits(d, value) <==> bound.lower <= value <= bound.upper
  }

  ghost predicate DistinctLayout(layout: seq<RelDecode>) {
    forall a, b | 0 <= a < b < |layout| :: layout[a].key != layout[b].key
  }

  /** What the enumerator relies on at one trace length. */
  ghost predicate GoodEnc(rels: Model, k: nat, e: Enc) {
    && e.k == k && e.next + k <= e.n
    && DistinctLayout(e.layout)
    && (forall j | 0 <= j < |e.layout| :: GoodDecode(e.layout[j], e.next))
    && (forall r | r in rels && !r.variable :: Binds(e, Static(r.id), r.bound))
    && (forall r, s: nat | r in rels && r.variable && s < k :: Binds(e, Copy(r.id, s), r.bound))
    && Projects(e.layout, e.next)
    && (forall m | m in Models(e.n, e.base) :: ExactlyOne(m, e.next, k))
  }

  ghost predicate GoodProblem(p: Problem) {
    && GoodModel(p.rels) && 1 <= p.min <= p.max
    && forall k: nat | k >= 1 :: GoodEnc(p.rels, k, p.enc(k))
  }

  // ------------------------------------------------------------------ what an assignment shows

  function StaticPart(rels: Model, flat: Instance): State
    decreases |rels|
  {
    if rels == [] then map[]
    else
      var r := rels[|rels| - 1];
      var rest := StaticPart(rels[..|rels| - 1], flat);
      if !r.variable && Static(r.id) in flat then rest[r.id := flat[Static(r.id)]] else rest
  }

  function VarPart(rels: Model, flat: Instance, s: nat): State
    decreases |rels|
  {
    if rels == [] then map[]
    else
      var r := rels[|rels| - 1];
      var rest := VarPart(rels[..|rels| - 1], flat, s);
      if r.variable && Copy(r.id, s) in flat then rest[r.id := flat[Copy(r.id, s)]] else rest
  }

  function StatesOf(rels: Model, k: nat, flat: Instance): seq<State> {
    seq(k, s requires 0 <= s < k => VarPart(rels, flat, s))
  }

  function ConfigAt(rels: Model, e: Enc, m: Assignment): State {
    StaticPart(rels, Decode(e.layout, m))
  }

  function LassoAt(rels: Model, e: Enc, m: Assignment): Lasso {
    Lasso(StatesOf(rels, e.k, Decode(e.layout, m)), LoopOf(m, e.next, e.k))
  }

  /** The trace an assignment stands for. */
  datatype Trace = Trace(config: State, lasso: Lasso)

  function TraceAt(rels: Model, e: Enc, m: Assignment): Trace {
    Trace(ConfigAt(rels, e, m), LassoAt(rels, e, m))
  }

  lemma LassoValid(rels: Model, e: Enc, m: Assignment)
    requires GoodEnc(rels, e.k, e) && m in Models(e.n, e.base)
    ensures Valid(LassoAt(rels, e, m))
  {
    var s: nat :| OnlyLoop(m, e.next, e.k, s);
    LoopUnique(m, e.next, e.k, s);
  }

  /** Agreeing on the primary and loop variables is showing the same trace. */
  lemma SameShown(rels: Model, e: Enc, m: Assignment, m': Assignment)
    requires GoodEnc(rels, e.k, e) && |m| == e.n && |m'| == e.n && SameOn(m, m', Consecutive(0, e.next + e.k))
    ensures TraceAt(rels, e, m) == TraceAt(rels, e, m')
  {
    var all := Consecutive(0, e.next + e.k);
    forall v: nat | v < e.next + e.k ensures m[v] == m'[v] { assert all[v] == v; }
    assert SameOn(m, m', Consecutive(0, e.next));
    assert Decode(e.layout, m) == Decode(e.layout, m');
    SameLoop(m, m', e.next, e.k);
  }

  lemma {:induction false} SameLoop(m: Assignment, m': Assignment, first: nat, k: nat)
    requires first + k <= |m| == |m'| && forall v: nat | v < first + k :: m[v] == m'[v]
    ensures LoopOf(m, first, k) == LoopOf(m', first, k)
    decreases k
  {
    if k > 0 { SameLoop(m, m', first, k - 1); }
  }

  // ------------------------------------------------------------------ configurations

  ghost predicate ConfigFor(rels: Model, config: State) {
    && (forall id | id in config :: HasRel(rels, id, false))
    && forall r | r in rels && !r.variable :: r.id in config && r.bound.lower <= config[r.id] <= r.bound.upper
  }

  /** The static relations have the configuration's values. */
  ghost predicate HoldsConfig(rels: Model, flat: Instance, config: State) {
    forall r | r in rels && !r.variable :: Static(r.id) in flat && r.id in config && flat[Static(r.id)] == config[r.id]
  }

  lemma {:induction false} StaticPartAt(rels: Model, flat: Instance, id: nat)
    requires GoodModel(rels)
    ensures id in StaticPart(rels, flat) <==> HasRel(rels, id, false) && Static(id) in flat
    ensures id in StaticPart(rels, flat) ==> StaticPart(rels, flat)[id] == flat[Static(id)]
    decreases |rels|
  {
    if rels != [] {
      var front, last := rels[..|rels| - 1], rels[|rels| - 1];
      assert forall r :: r in rels <==> r in front || r == last;
      StaticPartAt(front, flat, id);
    }
  }

  lemma {:induction false} VarPartAt(rels: Model, flat: Instance, s: nat, id: nat)
    requires GoodModel(rels)
    ensures id in VarPart(rels, flat, s) <==> HasRel(rels, id, true) && Copy(id, s) in flat
    ensures id in VarPart(rels, flat, s) ==> VarPart(rels, flat, s)[id] == flat[Copy(id, s)]
    decreases |rels|
  {
    if rels != [] {
      var front, last := rels[..|rels| - 1], rels[|rels| - 1];
      assert forall r :: r in rels <==> r in front || r == last;
      VarPartAt(front, flat, s, id);
    }
  }

  ghost predicate FlatStatics(rels: Model, flat: Instance) {
    forall r | r in rels && !r.variable :: Static(r.id) in flat
  }

  lemma ConfigExact(rels: Model, flat: Instance, config: State)
    requires GoodModel(rels) && ConfigFor(rels, config) && FlatStatics(rels, flat)
    ensures HoldsConfig(rels, flat, config) <==> StaticPart(rels, flat) == config
  {
    if HoldsConfig(rels, flat, config) {
      forall id
        ensures id in StaticPart(rels, flat) <==> id in config
        ensures id in config ==> StaticPart(rels, flat)[id] == config[id]
      {
        StaticPartAt(rels, flat, id);
        if id in config { var r :| r in rels && r.id == id && !r.variable; }
      }
    }
    if StaticPart(rels, flat) == config {
      forall r | r in rels && !r.variable
        ensures Static(r.id) in flat && r.id in config && flat[Static(r.id)] == config[r.id]
      {
        StaticPartAt(rels, flat, r.id);
      }
    }
  }

  lemma BoundDecode(e: Enc, key: RelKey, bound: RelBound, m: Assignment) returns (j: nat)
    requires DistinctLayout(e.layout) && Binds(e, key, bound)
    ensures j < |e.layout| && e.layout[j].key == key && DecodesBound(e.layout[j], bound)
    ensures key in Decode(e.layout, m) && Decode(e.layout, m)[key] == DecodeRel(e.layout[j], m)
  {
    j :| 0 <= j < |e.layout| && e.layout[j].key == key && DecodesBound(e.layout[j], bound);
    DecodeAt(e.layout, m, j);
  }

  lemma DecodeFits(d: RelDecode, m: Assignment)
    ensures Fits(d, DecodeRel(d, m))
  {
  }

  /** A decoded value lies inside the relation's bounds. */
  lemma DecodedBound(e: Enc, key: RelKey, bound: RelBound, m: Assignment)
    requires DistinctLayout(e.layout) && Binds(e, key, bound)
    ensures key in Decode(e.layout, m) && bound.lower <= Decode(e.layout, m)[key] <= bound.upper
  {
    var j := BoundDecode(e, key, bound, m);
    DecodeFits(e.layout[j], m);
  }

  /** A configuration read off an assignment is one of the model's. */
  lemma ConfigShown(rels: Model, e: Enc, m: Assignment)
    requires GoodModel(rels) && GoodEnc(rels, e.k, e)
    ensures FlatStatics(rels, Decode(e.layout, m)) && ConfigFor(rels, ConfigAt(rels, e, m))
  {
    var flat := Decode(e.layout, m);
    forall r | r in rels && !r.variable
      ensures Static(r.id) in flat && r.bound.lower <= flat[Static(r.id)] <= r.bound.upper
    {
      DecodedBound(e, Static(r.id), r.bound, m);
    }
    forall id | id in ConfigAt(rels, e, m) ensures HasRel(rels, id, false) { StaticPartAt(rels, flat, id); }
    forall r | r in rels && !r.variable
      ensures r.id in ConfigAt(rels, e, m) && r.bound.lower <= ConfigAt(rels, e, m)[r.id] <= r.bound.upper
    {
      assert HasRel(rels, r.id, false);
      StaticPartAt(rels, flat, r.id);
    }
  }
}
