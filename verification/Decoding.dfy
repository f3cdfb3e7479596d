/** Primary variables and the instances they stand for (crates/als-core/src/solve.rs): one variable for
    every tuple between a relation's bounds. */
module Decoding {
  import opened Algebra
  import opened LexOrder
  import opened Folder
  import opened Sat

  /** A relation of a flat problem: a static one, one state's copy of a variable one, or a goal skolem.
      The constructor's arguments stand for the freshly allocated id. */
  datatype RelKey = Static(rel: nat) | Copy(rel: nat, state: nat) | Skolem(rel: nat)

  type Bounds = seq<(RelKey, RelBound)>
  type Instance = map<RelKey, TupleSet>

  datatype RelDecode = RelDecode(key: RelKey, lower: TupleSet, floating: seq<(Tuple, SatVar)>)

  predicate DistinctKeys(bounds: Bounds) {
    forall a, b | 0 <= a < b < |bounds| :: bounds[a].0 != bounds[b].0
  }

  predicate GoodBounds(bounds: Bounds) {
    DistinctKeys(bounds) && forall j | 0 <= j < |bounds| :: bounds[j].1.lower <= bounds[j].1.upper
  }

  /** Consecutive variables for the floating tuples, in tuple order. */
  function Numbered(ts: seq<Tuple>, first: SatVar): seq<(Tuple, SatVar)> {
    seq(|ts|, j requires 0 <= j < |ts| => (ts[j], first + j))
  }

  function RelLayout(b: (RelKey, RelBound), first: SatVar): RelDecode {
    RelDecode(b.0, b.1.lower, Numbered(Sorted(b.1.upper - b.1.lower), first))
  }

  /** The layout and the first variable it leaves free. */
  function Layout(bounds: Bounds, first: SatVar): (r: (seq<RelDecode>, SatVar))
    ensures |r.0| == |bounds| && r.1 >= first
    ensures forall j | 0 <= j < |bounds| :: r.0[j].key == bounds[j].0 && r.0[j].lower == bounds[j].1.lower
    decreases |bounds|
  {
    if bounds == [] then ([], first)
    else
      var last := |bounds| - 1;
      var (rest, next) := Layout(bounds[..last], first);
      var d := RelLayout(bounds[last], next);
      (rest + [d], next + |d.floating|)
  }

  function Consecutive(first: SatVar, n: nat): seq<SatVar> {
    seq(n, j requires 0 <= j < n => first + j)
  }

  /** One relation's entry: its floating tuples, each with the next fresh variable. */
  method AllocateRelation(key: RelKey, b: RelBound, first: SatVar) returns (d: RelDecode, vars: seq<SatVar>)
    ensures d == RelLayout((key, b), first) && vars == Consecutive(first, |d.floating|)
  {
    var ts := Sorted(b.upper - b.lower);
    var floating: seq<(Tuple, SatVar)> := [];
    vars := [];
    var j := 0;
    while j < |ts|
      invariant 0 <= j <= |ts|
      invariant floating == Numbered(ts[..j], first) && vars == Consecutive(first, j)
    {
      vars := vars + [first + j];
      floating := floating + [(ts[j], first + j)];
      j := j + 1;
    }
    assert ts[..j] == ts;
    d := RelDecode(key, b.lower, floating);
  }

  lemma ConsecutiveJoin(first: SatVar, a: nat, b: nat)
    ensures Consecutive(first, a) + Consecutive(first + a, b) == Consecutive(first, a + b)
  {
  }

  lemma LayoutNext(bounds: Bounds, first: SatVar, i: nat)
    requires i < |bounds|
    ensures var (layout, next) := Layout(bounds[..i], first);
      var d := RelLayout(bounds[i], next);
      Layout(bounds[..i + 1], first) == (layout + [d], next + |d.floating|)
  {
    assert bounds[..i + 1][..i] == bounds[..i];
  }

  /** Allocates the primaries relation by relation, tuple by tuple. */
  method AllocatePrimaries(bounds: Bounds, first: SatVar) returns (layout: seq<RelDecode>, primary: seq<SatVar>, next: SatVar)
    ensures (layout, next) == Layout(bounds, first)
    ensures primary == Consecutive(first, next - first)
  {
    layout, primary, next := [], [], first;
    var i := 0;
    while i < |bounds|
      invariant 0 <= i <= |bounds| && next >= first
      invariant Layout(bounds[..i], first) == (layout, next)
      invariant primary == Consecutive(first, next - first)
    {
      layout, primary, next := AllocateNext(bounds, i, first, layout, primary, next);
      i := i + 1;
    }
    assert bounds[..i] == bounds;
  }

  method AllocateNext(bounds: Bounds, i: nat, ghost first: SatVar, layout: seq<RelDecode>, primary: seq<SatVar>, next: SatVar)
    returns (layout': seq<RelDecode>, primary': seq<SatVar>, next': SatVar)
    requires i < |bounds| && Layout(bounds[..i], first) == (layout, next) && next >= first && primary == Consecutive(first, next - first)
    ensures Layout(bounds[..i + 1], first) == (layout', next') && next' >= first && primary' == Consecutive(first, next' - first)
  {
    LayoutNext(bounds, first, i);
    var d, vars := AllocateRelation(bounds[i].0, bounds[i].1, next);
    ConsecutiveJoin(first, next - first, |d.floating|);
    layout', primary', next' := layout + [d], primary + vars, next + |d.floating|;
  }

  // ------------------------------------------------------------------ decoding

  function Value(m: Assignment, v: SatVar): bool {
    v < |m| && m[v]
  }

  /** The lower tuples and the floating tuples whose variable is true. */
  function DecodeRel(d: RelDecode, m: Assignment): TupleSet {
    d.lower + set j | 0 <= j < |d.floating| && Value(m, d.floating[j].1) :: d.floating[j].0
  }

  function Decode(layout: seq<RelDecode>, m: Assignment): (r: Instance)
    ensures forall x :: x in r <==> exists j :: 0 <= j < |layout| && layout[j].key == x
    decreases |layout|
  {
    if layout == [] then map[]
    else
      var last := |layout| - 1;
      var rest := Decode(layout[..last], m);
      assert forall j | 0 <= j < last :: layout[..last][j] == layout[j];
      rest[layout[last].key := DecodeRel(layout[last], m)]
  }

  method DecodeLoop(layout: seq<RelDecode>, m: Assignment) returns (inst: Instance)
    ensures inst == Decode(layout, m)
  {
    inst := map[];
    var i := 0;
    while i < |layout|
      invariant 0 <= i <= |layout| && inst == Decode(layout[..i], m)
    {
      var d := layout[i];
      var ts := d.lower;
      var j := 0;
      while j < |d.floating|
        invariant 0 <= j <= |d.floating|
        invariant ts == d.lower + set x | 0 <= x < j && Value(m, d.floating[x].1) :: d.floating[x].0
      {
        var (tuple, v) := d.floating[j];
        if Value(m, v) { ts := ts + {tuple}; }
        j := j + 1;
      }
      inst := inst[d.key := ts];
      assert layout[..i + 1][..i] == layout[..i];
      i := i + 1;
    }
    assert layout[..i] == layout;
  }

  /** Every relation of a layout decodes on its own. */
  lemma {:induction false} DecodeAt(layout: seq<RelDecode>, m: Assignment, j: nat)
    requires j < |layout| && forall a, b | 0 <= a < b < |layout| :: layout[a].key != layout[b].key
    ensures layout[j].key in Decode(layout, m) && Decode(layout, m)[layout[j].key] == DecodeRel(layout[j], m)
    decreases |layout|
  {
    if j < |layout| - 1 { DecodeAt(layout[..|layout| - 1], m, j); }
  }

  /** Where a relation's variables lie. */
  lemma {:induction false} LayoutVars(bounds: Bounds, first: SatVar, j: nat)
    requires j < |bounds|
    ensures var (layout, next) := Layout(bounds, first);
      exists start: nat :: first <= start && start + |layout[j].floating| <= next && layout[j] == RelLayout(bounds[j], start)
    decreases |bounds|
  {
    var last := |bounds| - 1;
    var (rest, next) := Layout(bounds[..last], first);
    if j < last {
      LayoutVars(bounds[..last], first, j);
    } else {
      assert Layout(bounds, first).0[j] == RelLayout(bounds[j], next);
    }
  }

  ghost predicate Inside(bounds: Bounds, inst: Instance) {
    && (forall x :: x in inst <==> exists j :: 0 <= j < |bounds| && bounds[j].0 == x)
    && forall j | 0 <= j < |bounds| :: bounds[j].0 in inst && bounds[j].1.lower <= inst[bounds[j].0] <= bounds[j].1.upper
  }

  lemma LayoutKeys(bounds: Bounds, first: SatVar)
    requires GoodBounds(bounds)
    ensures var layout := Layout(bounds, first).0; forall a, b | 0 <= a < b < |layout| :: layout[a].key != layout[b].key
  {
  }

  lemma RelInside(b: (RelKey, RelBound), start: SatVar, m: Assignment)
    requires b.1.lower <= b.1.upper
    ensures b.1.lower <= DecodeRel(RelLayout(b, start), m) <= b.1.upper
  {
    var d := RelLayout(b, start);
    var ts := Sorted(b.1.upper - b.1.lower);
    forall t | t in DecodeRel(d, m)
      ensures t in b.1.upper
    {
      if t !in d.lower {
        var j :| 0 <= j < |d.floating| && Value(m, d.floating[j].1) && d.floating[j].0 == t;
        assert ts[j] in ts;
      }
    }
  }

  lemma DecodedRel(bounds: Bounds, first: SatVar, m: Assignment, j: nat) returns (start: SatVar)
    requires GoodBounds(bounds) && j < |bounds|
    ensures var (layout, next) := Layout(bounds, first);
      && first <= start && start + |layout[j].floating| <= next && layout[j] == RelLayout(bounds[j], start)
      && bounds[j].0 in Decode(layout, m) && Decode(layout, m)[bounds[j].0] == DecodeRel(layout[j], m)
  {
    var (layout, next) := Layout(bounds, first);
    LayoutKeys(bounds, first);
    DecodeAt(layout, m, j);
    LayoutVars(bounds, first, j);
    start :| first <= start && start + |layout[j].floating| <= next && layout[j] == RelLayout(bounds[j], start);
  }

  lemma DecodeKeys(bounds: Bounds, first: SatVar, m: Assignment, x: RelKey)
    ensures x in Decode(Layout(bounds, first).0, m) <==> exists j :: 0 <= j < |bounds| && bounds[j].0 == x
  {
    var layout := Layout(bounds, first).0;
    if j :| 0 <= j < |layout| && layout[j].key == x { assert bounds[j].0 == x; }
    if j :| 0 <= j < |bounds| && bounds[j].0 == x { assert layout[j].key == x; }
  }

  /** Decoding stays inside the bounds. */
  lemma DecodeInside(bounds: Bounds, first: SatVar, m: Assignment)
    requires GoodBounds(bounds)
    ensures Inside(bounds, Decode(Layout(bounds, first).0, m))
  {
    var inst := Decode(Layout(bounds, first).0, m);
    forall j | 0 <= j < |bounds|
      ensures bounds[j].0 in inst && bounds[j].1.lower <= inst[bounds[j].0] <= bounds[j].1.upper
    {
      var start := DecodedRel(bounds, first, m, j);
      RelInside(bounds[j], start, m);
    }
    forall x
      ensures x in inst <==> exists j :: 0 <= j < |bounds| && bounds[j].0 == x
    {
      DecodeKeys(bounds, first, m, x);
    }
  }

  /** One relation's value fixes its variables. */
  lemma RelInjective(b: (RelKey, RelBound), start: SatVar, m: Assignment, m': Assignment)
    ensures var d := RelLayout(b, start);
      DecodeRel(d, m) == DecodeRel(d, m') <==> forall v: SatVar | start <= v < start + |d.floating| :: Value(m, v) == Value(m', v)
  {
    var d := RelLayout(b, start);
    var ts := Sorted(b.1.upper - b.1.lower);
    if DecodeRel(d, m) == DecodeRel(d, m') {
      forall v: SatVar | start <= v < start + |d.floating|
        ensures Value(m, v) == Value(m', v)
      {
        var j := v - start;
        RelMember(b, start, m, j);
        RelMember(b, start, m', j);
      }
    } else {
      if forall v: SatVar | start <= v < start + |d.floating| :: Value(m, v) == Value(m', v) {
        assert forall j | 0 <= j < |d.floating| :: Value(m, d.floating[j].1) == Value(m', d.floating[j].1);
        assert false;
      }
    }
  }

  lemma SortedOnce(s: TupleSet, x: nat, y: nat)
    requires x < |Sorted(s)| && y < |Sorted(s)| && Sorted(s)[x] == Sorted(s)[y]
    ensures x == y
  {
    SortedInOrder(s);
  }

  lemma RelMember(b: (RelKey, RelBound), start: SatVar, m: Assignment, j: nat)
    requires j < |RelLayout(b, start).floating|
    ensures var d := RelLayout(b, start); d.floating[j].0 in DecodeRel(d, m) <==> Value(m, start + j)
  {
    var d := RelLayout(b, start);
    var ts := Sorted(b.1.upper - b.1.lower);
    assert ts[j] in ts;
    if Value(m, start + j) { assert d.floating[j].1 == start + j; }
    if d.floating[j].0 in DecodeRel(d, m) {
      var x :| 0 <= x < |d.floating| && Value(m, d.floating[x].1) && d.floating[x].0 == ts[j];
      SortedOnce(b.1.upper - b.1.lower, x, j);
    }
  }

  // ------------------------------------------------------------------ a bijection

  /** Every primary variable belongs to some relation of the layout. */
  lemma {:induction false} VarOwner(bounds: Bounds, first: SatVar, v: SatVar) returns (j: nat, start: SatVar)
    requires first <= v < Layout(bounds, first).1
    ensures j < |bounds| && Layout(bounds, first).0[j] == RelLayout(bounds[j], start)
    ensures start <= v < start + |RelLayout(bounds[j], start).floating|
    decreases |bounds|
  {
    var last := |bounds| - 1;
    var (rest, next) := Layout(bounds[..last], first);
    if v < next {
      j, start := VarOwner(bounds[..last], first, v);
    } else {
      j, start := last, next;
    }
  }

  ghost predicate SameValues(m: Assignment, m': Assignment, first: SatVar, next: SatVar) {
    forall v: SatVar | first <= v < next :: Value(m, v) == Value(m', v)
  }

  /** Two assignments decode to the same instance exactly when they agree on the primary variables. */
  lemma DecodeInjective(bounds: Bounds, first: SatVar, m: Assignment, m': Assignment)
    requires GoodBounds(bounds)
    ensures var (layout, next) := Layout(bounds, first);
      Decode(layout, m) == Decode(layout, m') <==> SameValues(m, m', first, next)
  {
    var (layout, next) := Layout(bounds, first);
    if Decode(layout, m) == Decode(layout, m') {
      forall v: SatVar | first <= v < next
        ensures Value(m, v) == Value(m', v)
      {
        SameVar(bounds, first, m, m', v);
      }
    }
    if SameValues(m, m', first, next) { SameDecode(bounds, first, m, m'); }
  }

  lemma SameVar(bounds: Bounds, first: SatVar, m: Assignment, m': Assignment, v: SatVar)
    requires GoodBounds(bounds) && first <= v < Layout(bounds, first).1
    requires var layout := Layout(bounds, first).0; Decode(layout, m) == Decode(layout, m')
    ensures Value(m, v) == Value(m', v)
  {
    var j, start := VarOwner(bounds, first, v);
    LayoutKeys(bounds, first);
    DecodeAt(Layout(bounds, first).0, m, j);
    DecodeAt(Layout(bounds, first).0, m', j);
    RelInjective(bounds[j], start, m, m');
  }

  lemma SameDecode(bounds: Bounds, first: SatVar, m: Assignment, m': Assignment)
    requires GoodBounds(bounds) && SameValues(m, m', first, Layout(bounds, first).1)
    ensures var layout := Layout(bounds, first).0; Decode(layout, m) == Decode(layout, m')
  {
    var (layout, next) := Layout(bounds, first);
    var a, b := Decode(layout, m), Decode(layout, m');
    forall x | x in a
      ensures x in b && a[x] == b[x]
    {
      DecodeKeys(bounds, first, m, x);
      DecodeKeys(bounds, first, m', x);
      var j :| 0 <= j < |bounds| && bounds[j].0 == x;
      var start := DecodedRel(bounds, first, m, j);
      var start' := DecodedRel(bounds, first, m', j);
      RelInjective(bounds[j], start, m, m');
    }
    forall x | x in b
      ensures x in a
    {
      DecodeKeys(bounds, first, m, x);
      DecodeKeys(bounds, first, m', x);
    }
  }

  /** The variable of a tuple of an instance inside the bounds. */
  function Truth(bounds: Bounds, first: SatVar, inst: Instance, v: SatVar): bool
    decreases |bounds|
  {
    if bounds == [] then false
    else
      var last := |bounds| - 1;
      var next := Layout(bounds[..last], first).1;
      if v < next then Truth(bounds[..last], first, inst, v)
      else
        var ts := Sorted(bounds[last].1.upper - bounds[last].1.lower);
        v < next + |ts| && bounds[last].0 in inst && ts[v - next] in inst[bounds[last].0]
  }

  lemma {:induction false} TruthAt(bounds: Bounds, first: SatVar, inst: Instance, j: nat, start: SatVar, x: nat)
    requires j < |bounds| && bounds[j].0 in inst
    requires start == StartOf(bounds, first, j) && x < |RelLayout(bounds[j], start).floating|
    ensures Truth(bounds, first, inst, start + x) <==> RelLayout(bounds[j], start).floating[x].0 in inst[bounds[j].0]
    decreases |bounds|
  {
    var last := |bounds| - 1;
    if j < last {
      assert bounds[..last][..j] == bounds[..j];
      StartBefore(bounds[..last], first, j);
      TruthAt(bounds[..last], first, inst, j, start, x);
    } else {
      assert bounds[..last] == bounds[..j];
    }
  }

  /** The first variable of the `j`-th relation. */
  function StartOf(bounds: Bounds, first: SatVar, j: nat): SatVar
    requires j < |bounds|
  {
    Layout(bounds[..j], first).1
  }

  lemma {:induction false} StartBefore(bounds: Bounds, first: SatVar, j: nat)
    requires j < |bounds|
    ensures var start := StartOf(bounds, first, j);
      && Layout(bounds, first).0[j] == RelLayout(bounds[j], start)
      && first <= start && start + |RelLayout(bounds[j], start).floating| <= Layout(bounds, first).1
    decreases |bounds|
  {
    var last := |bounds| - 1;
    assert bounds[..last + 1] == bounds;
    LayoutNext(bounds, first, last);
    if j < last {
      assert bounds[..last][..j] == bounds[..j];
      StartBefore(bounds[..last], first, j);
      var rest, d := Layout(bounds[..last], first).0, RelLayout(bounds[last], Layout(bounds[..last], first).1);
      assert (rest + [d])[j] == rest[j];
    } else {
      assert bounds[..last] == bounds[..j];
    }
  }

  function Encoded(bounds: Bounds, first: SatVar, inst: Instance, n: nat): (m: Assignment)
    ensures |m| == n && forall v | 0 <= v < n :: m[v] == Truth(bounds, first, inst, v)
  {
    seq(n, v requires 0 <= v < n => Truth(bounds, first, inst, v))
  }

  /** Some assignment of the primary variables decodes to any instance inside the bounds. */
  lemma DecodeOnto(bounds: Bounds, first: SatVar, inst: Instance, n: nat) returns (m: Assignment)
    requires GoodBounds(bounds) && Inside(bounds, inst) && Layout(bounds, first).1 <= n
    ensures |m| == n && Decode(Layout(bounds, first).0, m) == inst
  {
    m := Encoded(bounds, first, inst, n);
    forall x ensures SameAt(Decode(Layout(bounds, first).0, m), inst, x) { OntoKey(bounds, first, inst, m, x); }
    SameInstance(Decode(Layout(bounds, first).0, m), inst);
  }

  predicate SameAt(a: Instance, b: Instance, x: RelKey) {
    (x in a <==> x in b) && (x in a ==> a[x] == b[x])
  }

  lemma SameInstance(a: Instance, b: Instance)
    requires forall x :: SameAt(a, b, x)
    ensures a == b
  {
    forall x ensures (x in a <==> x in b) && (x in a ==> a[x] == b[x]) { assert SameAt(a, b, x); }
  }

  lemma OntoKey(bounds: Bounds, first: SatVar, inst: Instance, m: Assignment, x: RelKey)
    requires GoodBounds(bounds) && Inside(bounds, inst) && Layout(bounds, first).1 <= |m|
    requires forall v | 0 <= v < |m| :: m[v] == Truth(bounds, first, inst, v)
    ensures SameAt(Decode(Layout(bounds, first).0, m), inst, x)
  {
    DecodeKeys(bounds, first, m, x);
    if j :| 0 <= j < |bounds| && bounds[j].0 == x {
      OntoRel(bounds, first, inst, m, j);
    }
  }

  lemma OntoRel(bounds: Bounds, first: SatVar, inst: Instance, m: Assignment, j: nat)
    requires GoodBounds(bounds) && Inside(bounds, inst) && j < |bounds| && Layout(bounds, first).1 <= |m|
    requires forall v | 0 <= v < |m| :: m[v] == Truth(bounds, first, inst, v)
    ensures bounds[j].0 in Decode(Layout(bounds, first).0, m) && bounds[j].0 in inst
    ensures Decode(Layout(bounds, first).0, m)[bounds[j].0] == inst[bounds[j].0]
  {
    var start := StartOf(bounds, first, j);
    LayoutKeys(bounds, first);
    DecodeAt(Layout(bounds, first).0, m, j);
    StartBefore(bounds, first, j);
    var d, value := RelLayout(bounds[j], start), inst[bounds[j].0];
    forall x: nat | x < |d.floating|
      ensures Value(m, start + x) <==> d.floating[x].0 in value
    {
      TruthAt(bounds, first, inst, j, start, x);
    }
    RelOnto(bounds[j], start, m, value);
  }

  /** A relation whose variables say which tuples of a value it has decodes to that value. */
  lemma RelOnto(b: (RelKey, RelBound), start: SatVar, m: Assignment, value: TupleSet)
    requires b.1.lower <= value <= b.1.upper
    requires var d := RelLayout(b, start); forall x: nat | x < |d.floating| :: Value(m, start + x) <==> d.floating[x].0 in value
    ensures DecodeRel(RelLayout(b, start), m) == value
  {
    var d := RelLayout(b, start);
    assert value <= DecodeRel(d, m) by {
      forall t | t in value && t !in d.lower
        ensures t in DecodeRel(d, m)
      {
        var x := FloatingIndex(b, start, t);
        RelMember(b, start, m, x);
      }
    }
    forall t | t in DecodeRel(d, m) && t !in d.lower
      ensures t in value
    {
      var x :| 0 <= x < |d.floating| && Value(m, d.floating[x].1) && d.floating[x].0 == t;
      assert d.floating[x].1 == start + x;
    }
  }

  lemma FloatingIndex(b: (RelKey, RelBound), start: SatVar, t: Tuple) returns (x: nat)
    requires t in b.1.upper - b.1.lower
    ensures x < |RelLayout(b, start).floating| && RelLayout(b, start).floating[x] == (t, start + x)
  {
    var ts := Sorted(b.1.upper - b.1.lower);
    assert t in ts;
    x :| 0 <= x < |ts| && ts[x] == t;
  }

  /** The all-false assignment decodes to every relation at its lower bound. */
  lemma TrivialDecode(bounds: Bounds, first: SatVar, m: Assignment, j: nat)
    requires GoodBounds(bounds) && j < |bounds| && forall v | 0 <= v < |m| :: !m[v]
    ensures bounds[j].0 in Decode(Layout(bounds, first).0, m) && Decode(Layout(bounds, first).0, m)[bounds[j].0] == bounds[j].1.lower
  {
    LayoutKeys(bounds, first);
    DecodeAt(Layout(bounds, first).0, m, j);
    assert bounds[j].0 == Layout(bounds, first).0[j].key;
  }
}
