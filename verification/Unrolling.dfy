/** Unrolling a model's bounds to a trace length, and splitting a flat instance into its states
    (crates/als-core/src/temporal.rs, crates/als-core/src/temporal_solve.rs). */
module Unrolling {
  import opened Folder
  import opened Decoding
  import opened TraceKey

  datatype ModelRel = ModelRel(id: nat, bound: RelBound, variable: bool)
  type Model = seq<ModelRel>

  predicate GoodModel(rels: Model) {
    && (forall a, b | 0 <= a < b < |rels| :: rels[a].id < rels[b].id)
    && forall j | 0 <= j < |rels| :: rels[j].bound.lower <= rels[j].bound.upper
  }

  function Statics(rels: Model): Bounds {
    if rels == [] then []
    else
      var r := rels[|rels| - 1];
      Statics(rels[..|rels| - 1]) + if r.variable then [] else [(Static(r.id), r.bound)]
  }

  function CopiesOf(r: ModelRel, k: nat): Bounds {
    seq(k, s requires 0 <= s < k => (Copy(r.id, s), r.bound))
  }

  function Copies(rels: Model, k: nat): Bounds {
    if rels == [] then []
    else
      var r := rels[|rels| - 1];
      Copies(rels[..|rels| - 1], k) + if r.variable then CopiesOf(r, k) else []
  }

  /** Static relations keep their bounds; a variable one is replaced by one copy for each state. */
  function Unrolled(rels: Model, k: nat): Bounds {
    Statics(rels) + Copies(rels, k)
  }

  method Unroll(rels: Model, k: nat) returns (bounds: Bounds)
    ensures bounds == Unrolled(rels, k)
  {
    var statics, copies := [], [];
    var i := 0;
    while i < |rels|
      invariant 0 <= i <= |rels| && statics == Statics(rels[..i]) && copies == Copies(rels[..i], k)
    {
      var r := rels[i];
      assert rels[..i + 1][..i] == rels[..i];
      if r.variable {
        var s := 0;
        ghost var before := copies;
        while s < k
          invariant 0 <= s <= k && copies == before + CopiesOf(r, s)
        {
          copies := copies + [(Copy(r.id, s), r.bound)];
          s := s + 1;
        }
      } else {
        statics := statics + [(Static(r.id), r.bound)];
      }
      i := i + 1;
    }
    assert rels[..i] == rels;
    bounds := statics + copies;
  }

  // ------------------------------------------------------------------ membership

  lemma {:induction false} InStatics(rels: Model, e: (RelKey, RelBound))
    ensures e in Statics(rels) <==> exists r :: r in rels && !r.variable && e == (Static(r.id), r.bound)
    decreases |rels|
  {
    if rels != [] {
      InStatics(rels[..|rels| - 1], e);
      assert forall r :: r in rels <==> r in rels[..|rels| - 1] || r == rels[|rels| - 1];
    }
  }

  ghost predicate IsCopy(rels: Model, k: nat, e: (RelKey, RelBound)) {
    exists r, s: nat :: r in rels && r.variable && s < k && e == (Copy(r.id, s), r.bound)
  }

  lemma {:induction false} InCopies(rels: Model, k: nat, e: (RelKey, RelBound))
    ensures e in Copies(rels, k) <==> IsCopy(rels, k, e)
    decreases |rels|
  {
    if rels != [] {
      var last := rels[|rels| - 1];
      InCopies(rels[..|rels| - 1], k, e);
      assert forall r :: r in rels <==> r in rels[..|rels| - 1] || r == last;
      if e in CopiesOf(last, k) {
        var s :| 0 <= s < k && CopiesOf(last, k)[s] == e;
        assert last in rels && e == (Copy(last.id, s), last.bound);
      }
      if s: nat :| s < k && e == (Copy(last.id, s), last.bound) {
        assert CopiesOf(last, k)[s] == e;
      }
    }
  }

  lemma IdUnique(rels: Model, a: ModelRel, b: ModelRel)
    requires GoodModel(rels) && a in rels && b in rels && a.id == b.id
    ensures a == b
  {
    assert forall x, y | 0 <= x < |rels| && 0 <= y < |rels| && x != y :: rels[x].id != rels[y].id;
    var x :| 0 <= x < |rels| && rels[x] == a;
    var y :| 0 <= y < |rels| && rels[y] == b;
  }

  lemma DistinctJoin(a: Bounds, b: Bounds)
    requires DistinctKeys(a) && DistinctKeys(b) && forall e, f | e in a && f in b :: e.0 != f.0
    ensures DistinctKeys(a + b)
  {
    var c := a + b;
    forall x, y | 0 <= x < y < |c|
      ensures c[x].0 != c[y].0
    {
      if x < |a| <= y { assert a[x] in a && b[y - |a|] in b; }
    }
  }

  lemma {:induction false} StaticsDistinct(rels: Model)
    requires GoodModel(rels)
    ensures DistinctKeys(Statics(rels))
    decreases |rels|
  {
    if rels != [] {
      var front, last := rels[..|rels| - 1], rels[|rels| - 1];
      StaticsDistinct(front);
      forall e | e in Statics(front)
        ensures e.0 != Static(last.id)
      {
        InStatics(front, e);
        var r :| r in front && !r.variable && e == (Static(r.id), r.bound);
        var x :| 0 <= x < |front| && front[x] == r;
        assert rels[x].id < last.id;
      }
      DistinctJoin(Statics(front), if last.variable then [] else [(Static(last.id), last.bound)]);
    }
  }

  lemma {:induction false} CopiesDistinct(rels: Model, k: nat)
    requires GoodModel(rels)
    ensures DistinctKeys(Copies(rels, k))
    decreases |rels|
  {
    if rels != [] {
      var front, last := rels[..|rels| - 1], rels[|rels| - 1];
      CopiesDistinct(front, k);
      forall e, f | e in Copies(front, k) && f in CopiesOf(last, k)
        ensures e.0 != f.0
      {
        InCopies(front, k, e);
        var r, s: nat :| r in front && r.variable && s < k && e == (Copy(r.id, s), r.bound);
        var x :| 0 <= x < |front| && front[x] == r;
        assert rels[x].id < last.id;
      }
      DistinctJoin(Copies(front, k), if last.variable then CopiesOf(last, k) else []);
    }
  }

  /** The unrolled bounds bind each relation once, and soundly. */
  lemma UnrolledGood(rels: Model, k: nat)
    requires GoodModel(rels)
    ensures GoodBounds(Unrolled(rels, k))
  {
    StaticsDistinct(rels);
    CopiesDistinct(rels, k);
    var bounds := Unrolled(rels, k);
    forall e, f | e in Statics(rels) && f in Copies(rels, k)
      ensures e.0 != f.0
    {
      InStatics(rels, e);
      InCopies(rels, k, f);
    }
    DistinctJoin(Statics(rels), Copies(rels, k));
    forall j | 0 <= j < |bounds|
      ensures bounds[j].1.lower <= bounds[j].1.upper
    {
      InUnrolled(rels, k, bounds[j]);
    }
  }

  lemma InUnrolled(rels: Model, k: nat, e: (RelKey, RelBound))
    ensures e in Unrolled(rels, k) <==>
            (exists r :: r in rels && !r.variable && e == (Static(r.id), r.bound)) || IsCopy(rels, k, e)
  {
    InStatics(rels, e);
    InCopies(rels, k, e);
  }

  // ------------------------------------------------------------------ states

  ghost predicate HasRel(rels: Model, id: nat, variable: bool) {
    exists r :: r in rels && r.id == id && r.variable == variable
  }

  /** A flat instance gives exactly the unrolled relations values inside their bounds. */
  ghost predicate FlatInside(rels: Model, k: nat, flat: Instance) {
    && (forall x | x in flat :: match x
          case Static(id) => HasRel(rels, id, false)
          case Copy(id, s) => s < k && HasRel(rels, id, true)
          case Skolem(_) => false)
    && (forall r | r in rels && !r.variable :: Static(r.id) in flat && r.bound.lower <= flat[Static(r.id)] <= r.bound.upper)
    && (forall r, s: nat | r in rels && r.variable && s < k ::
          Copy(r.id, s) in flat && r.bound.lower <= flat[Copy(r.id, s)] <= r.bound.upper)
  }

  /** One state: a value inside the bounds for every relation of the model. */
  ghost predicate StateInside(rels: Model, state: State) {
    && (forall id | id in state :: exists r :: r in rels && r.id == id)
    && (forall r | r in rels :: r.id in state && r.bound.lower <= state[r.id] <= r.bound.upper)
  }

  ghost predicate SameStatics(rels: Model, states: seq<State>) {
    forall r, a, b | r in rels && !r.variable && 0 <= a < b < |states| && r.id in states[a] && r.id in states[b] ::
      states[a][r.id] == states[b][r.id]
  }

  function StateAt(rels: Model, flat: Instance, s: nat): State
    decreases |rels|
  {
    if rels == [] then map[]
    else
      var r := rels[|rels| - 1];
      var key := if r.variable then Copy(r.id, s) else Static(r.id);
      StateAt(rels[..|rels| - 1], flat, s)[r.id := if key in flat then flat[key] else {}]
  }

  function Split(rels: Model, k: nat, flat: Instance): seq<State> {
    seq(k, s requires 0 <= s < k => StateAt(rels, flat, s))
  }

  method SplitStates(rels: Model, k: nat, flat: Instance) returns (states: seq<State>)
    ensures states == Split(rels, k, flat)
  {
    states := [];
    var s := 0;
    while s < k
      invariant 0 <= s <= k && states == Split(rels, s, flat)
    {
      var state: State := map[];
      var i := 0;
      while i < |rels|
        invariant 0 <= i <= |rels| && state == StateAt(rels[..i], flat, s)
      {
        var r := rels[i];
        var key := if r.variable then Copy(r.id, s) else Static(r.id);
        state := state[r.id := if key in flat then flat[key] else {}];
        assert rels[..i + 1][..i] == rels[..i];
        i := i + 1;
      }
      assert rels[..i] == rels;
      states := states + [state];
      s := s + 1;
    }
  }

  lemma {:induction false} StateAtValue(rels: Model, flat: Instance, s: nat, r: ModelRel)
    requires GoodModel(rels) && r in rels
    ensures r.id in StateAt(rels, flat, s)
    ensures var key := if r.variable then Copy(r.id, s) else Static(r.id);
      key in flat ==> StateAt(rels, flat, s)[r.id] == flat[key]
    decreases |rels|
  {
    var last := rels[|rels| - 1];
    if r != last {
      assert r in rels[..|rels| - 1];
      StateAtValue(rels[..|rels| - 1], flat, s, r);
      if r.id == last.id { IdUnique(rels, r, last); }
    }
  }

  lemma {:induction false} StateAtIds(rels: Model, flat: Instance, s: nat, id: nat)
    requires id in StateAt(rels, flat, s)
    ensures exists r :: r in rels && r.id == id
    decreases |rels|
  {
    var last := rels[|rels| - 1];
    if id != last.id {
      StateAtIds(rels[..|rels| - 1], flat, s, id);
      var r :| r in rels[..|rels| - 1] && r.id == id;
      assert r in rels;
    } else {
      assert last in rels;
    }
  }

  /** Splitting gives states inside the original bounds that agree on the static relations. */
  lemma SplitInside(rels: Model, k: nat, flat: Instance)
    requires GoodModel(rels) && FlatInside(rels, k, flat)
    ensures SameStatics(rels, Split(rels, k, flat))
    ensures forall s | 0 <= s < k :: StateInside(rels, Split(rels, k, flat)[s])
  {
    forall s | 0 <= s < k
      ensures StateInside(rels, StateAt(rels, flat, s))
    {
      forall id | id in StateAt(rels, flat, s) ensures exists r :: r in rels && r.id == id { StateAtIds(rels, flat, s, id); }
      forall r | r in rels
        ensures r.id in StateAt(rels, flat, s) && r.bound.lower <= StateAt(rels, flat, s)[r.id] <= r.bound.upper
      {
        StateAtValue(rels, flat, s, r);
      }
    }
    forall r, a, b | r in rels && !r.variable && 0 <= a < b < k
      ensures r.id in StateAt(rels, flat, a) && r.id in StateAt(rels, flat, b) && StateAt(rels, flat, a)[r.id] == StateAt(rels, flat, b)[r.id]
    {
      StateAtValue(rels, flat, a, r);
      StateAtValue(rels, flat, b, r);
    }
  }

  /** Splitting loses nothing. */
  lemma SplitInjective(rels: Model, k: nat, flat: Instance, flat': Instance)
    requires GoodModel(rels) && k >= 1 && FlatInside(rels, k, flat) && FlatInside(rels, k, flat')
    requires Split(rels, k, flat) == Split(rels, k, flat')
    ensures flat == flat'
  {
    forall x
      ensures SameAt(flat, flat', x)
    {
      match x
      case Static(id) =>
        if r :| r in rels && r.id == id && !r.variable { SameValueAt(rels, k, flat, flat', r, 0); }
      case Copy(id, s) =>
        if s < k {
          if r :| r in rels && r.id == id && r.variable { SameValueAt(rels, k, flat, flat', r, s); }
        }
      case Skolem(_) =>
    }
    SameInstance(flat, flat');
  }

  lemma SameValueAt(rels: Model, k: nat, flat: Instance, flat': Instance, r: ModelRel, s: nat)
    requires GoodModel(rels) && FlatInside(rels, k, flat) && FlatInside(rels, k, flat')
    requires Split(rels, k, flat) == Split(rels, k, flat') && r in rels && s < k
    ensures var key := if r.variable then Copy(r.id, s) else Static(r.id); key in flat && key in flat' && flat[key] == flat'[key]
  {
    assert Split(rels, k, flat)[s] == StateAt(rels, flat, s) && Split(rels, k, flat')[s] == StateAt(rels, flat', s);
    StateAtValue(rels, flat, s, r);
    StateAtValue(rels, flat', s, r);
  }

  /** The flat instance of a sequence of states. */
  function JoinStates(rels: Model, states: seq<State>): Instance
    decreases |rels|
  {
    if rels == [] then map[]
    else
      var r := rels[|rels| - 1];
      var rest := JoinStates(rels[..|rels| - 1], states);
      if r.variable then JoinCopies(r.id, states, |states|, rest)
      else if states != [] && r.id in states[0] then rest[Static(r.id) := states[0][r.id]] else rest
  }

  function JoinCopies(id: nat, states: seq<State>, upto: nat, inst: Instance): Instance
    requires upto <= |states|
  {
    if upto == 0 then inst
    else
      var rest := JoinCopies(id, states, upto - 1, inst);
      if id in states[upto - 1] then rest[Copy(id, upto - 1) := states[upto - 1][id]] else rest
  }

  lemma {:induction false} JoinCopiesAt(id: nat, states: seq<State>, upto: nat, inst: Instance, x: RelKey)
    requires upto <= |states| && forall s | 0 <= s < upto :: id in states[s]
    ensures var j := JoinCopies(id, states, upto, inst);
      if x.Copy? && x.rel == id && x.state < upto then x in j && j[x] == states[x.state][id]
      else (x in j <==> x in inst) && (x in j ==> j[x] == inst[x])
    decreases upto
  {
    if upto > 0 { JoinCopiesAt(id, states, upto - 1, inst, x); }
  }

  /** What joining gives each key. */
  lemma {:induction false} JoinAt(rels: Model, states: seq<State>, x: RelKey)
    requires GoodModel(rels) && states != [] && forall r, s | r in rels && 0 <= s < |states| :: r.id in states[s]
    ensures var j := JoinStates(rels, states);
      match x
      case Static(id) =>
        (x in j <==> HasRel(rels, id, false)) && (x in j ==> id in states[0] && j[x] == states[0][id])
      case Copy(id, s) =>
        (x in j <==> s < |states| && HasRel(rels, id, true)) && (x in j ==> s < |states| && id in states[s] && j[x] == states[s][id])
      case Skolem(_) => x !in j
    decreases |rels|
  {
    if rels != [] {
      var last, front := rels[|rels| - 1], rels[..|rels| - 1];
      assert forall r :: r in rels <==> r in front || r == last;
      JoinAt(front, states, x);
      if last.variable {
        JoinCopiesAt(last.id, states, |states|, JoinStates(front, states), x);
      }
    }
  }

  lemma JoinInside(rels: Model, states: seq<State>)
    requires GoodModel(rels) && states != []
    requires SameStatics(rels, states) && forall s | 0 <= s < |states| :: StateInside(rels, states[s])
    ensures FlatInside(rels, |states|, JoinStates(rels, states))
  {
    var flat := JoinStates(rels, states);
    forall x | x in flat { JoinAt(rels, states, x); }
    forall r | r in rels && !r.variable
      ensures Static(r.id) in flat && r.bound.lower <= flat[Static(r.id)] <= r.bound.upper
    {
      JoinAt(rels, states, Static(r.id));
    }
    forall r, s: nat | r in rels && r.variable && s < |states|
      ensures Copy(r.id, s) in flat && r.bound.lower <= flat[Copy(r.id, s)] <= r.bound.upper
    {
      JoinAt(rels, states, Copy(r.id, s));
    }
  }

  /** Every sequence of states inside the bounds that agrees on the statics comes from exactly one flat
      instance inside the unrolled bounds. */
  lemma SplitOnto(rels: Model, states: seq<State>)
    requires GoodModel(rels) && states != []
    requires SameStatics(rels, states) && forall s | 0 <= s < |states| :: StateInside(rels, states[s])
    ensures FlatInside(rels, |states|, JoinStates(rels, states))
    ensures Split(rels, |states|, JoinStates(rels, states)) == states
  {
    JoinInside(rels, states);
    var flat := JoinStates(rels, states);
    forall s | 0 <= s < |states|
      ensures StateAt(rels, flat, s) == states[s]
    {
      var a, b := StateAt(rels, flat, s), states[s];
      forall id | id in a ensures id in b { StateAtIds(rels, flat, s, id); }
      forall id | id in b
        ensures id in a && a[id] == b[id]
      {
        var r :| r in rels && r.id == id;
        StateAtValue(rels, flat, s, r);
        if r.variable {
          JoinAt(rels, states, Copy(id, s));
        } else {
          JoinAt(rels, states, Static(id));
          if s > 0 { assert states[0][r.id] == states[s][r.id]; }
        }
      }
    }
  }

  /** Lying inside the unrolled bounds, relation by relation. */
  lemma FlatInsideUnrolled(rels: Model, k: nat, flat: Instance)
    requires GoodModel(rels)
    ensures Inside(Unrolled(rels, k), flat) <==> FlatInside(rels, k, flat)
  {
    if Inside(Unrolled(rels, k), flat) { InsideFlat(rels, k, flat); }
    if FlatInside(rels, k, flat) { FlatIsInside(rels, k, flat); }
  }

  lemma InsideFlat(rels: Model, k: nat, flat: Instance)
    requires GoodModel(rels) && Inside(Unrolled(rels, k), flat)
    ensures FlatInside(rels, k, flat)
  {
    var bounds := Unrolled(rels, k);
    forall x | x in flat
      ensures match x { case Static(id) => HasRel(rels, id, false) case Copy(id, s) => s < k && HasRel(rels, id, true) case Skolem(_) => false }
    {
      var j :| 0 <= j < |bounds| && bounds[j].0 == x;
      InUnrolled(rels, k, bounds[j]);
    }
    forall r | r in rels && !r.variable
      ensures Static(r.id) in flat && r.bound.lower <= flat[Static(r.id)] <= r.bound.upper
    {
      InUnrolled(rels, k, (Static(r.id), r.bound));
    }
    forall r, s: nat | r in rels && r.variable && s < k
      ensures Copy(r.id, s) in flat && r.bound.lower <= flat[Copy(r.id, s)] <= r.bound.upper
    {
      assert IsCopy(rels, k, (Copy(r.id, s), r.bound));
      InUnrolled(rels, k, (Copy(r.id, s), r.bound));
    }
  }

  lemma FlatIsInside(rels: Model, k: nat, flat: Instance)
    requires GoodModel(rels) && FlatInside(rels, k, flat)
    ensures Inside(Unrolled(rels, k), flat)
  {
    var bounds := Unrolled(rels, k);
    forall j | 0 <= j < |bounds|
      ensures bounds[j].0 in flat && bounds[j].1.lower <= flat[bounds[j].0] <= bounds[j].1.upper
    {
      InUnrolled(rels, k, bounds[j]);
    }
    forall x | x in flat
      ensures exists j :: 0 <= j < |bounds| && bounds[j].0 == x
    {
      match x
      case Static(id) =>
        var r :| r in rels && r.id == id && !r.variable;
        InUnrolled(rels, k, (x, r.bound));
      case Copy(id, s) =>
        var r :| r in rels && r.id == id && r.variable;
        assert IsCopy(rels, k, (x, r.bound));
        InUnrolled(rels, k, (x, r.bound));
    }
  }
}
