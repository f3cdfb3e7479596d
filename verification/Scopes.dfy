/** Deriving every sig's scope (crates/als-core/src/scope.rs): explicit scopes, forced multiplicities, and
    the abstract-sum, overall and parent rules run pass by pass to a fixpoint. */
module Scopes {
  import opened Wrappers

  datatype SigMult = One | Lone | SomeMult
  datatype SigKind = Prim(parent: Option<nat>) | Subset

  /** A sig of the resolved world; a primitive sig without a parent is top-level. */
  datatype Sig = Sig(kind: SigKind, isAbstract: bool, isEnum: bool, isVar: bool, mult: Option<SigMult>)

  type World = seq<Sig>
  type Table = seq<Option<nat>>

  /** One `but [exactly] N sig` clause; `at` is where it stands in the source text. */
  datatype ScopeEntry = ScopeEntry(sig: nat, scope: nat, exact: bool, at: nat)

  datatype Command = Command(
    overall: Option<nat>, scopes: seq<ScopeEntry>, additionalExact: seq<nat>,
    maxString: Option<nat>, stringExact: bool, at: nat)

  const DEFAULT_OVERALL: nat := 3

  /** Parents are primitive sigs, and extending never runs in a circle: the rank grows downwards. */
  ghost predicate GoodWorld(w: World, rank: seq<nat>) {
    && |rank| == |w|
    && forall i | 0 <= i < |w| && w[i].kind.Prim? && w[i].kind.parent.Some? ::
         w[i].kind.parent.value < |w| && w[w[i].kind.parent.value].kind.Prim? && rank[w[i].kind.parent.value] < rank[i]
  }

  predicate IsScopable(w: World, i: nat) {
    i < |w| && w[i].kind.Prim?
  }

  predicate IsTopLevel(w: World, i: nat) {
    IsScopable(w, i) && w[i].kind.parent.None?
  }

  predicate IsChild(w: World, p: nat, i: nat) {
    IsScopable(w, i) && w[i].kind.parent == Some(p)
  }

  /** The primitive children of a sig among the first `upto`, in declaration order. */
  function ChildrenBelow(w: World, p: nat, upto: nat): seq<nat>
    requires upto <= |w|
  {
    if upto == 0 then []
    else ChildrenBelow(w, p, upto - 1) + if IsChild(w, p, upto - 1) then [upto - 1] else []
  }

  function Children(w: World, p: nat): seq<nat> {
    ChildrenBelow(w, p, |w|)
  }

  lemma {:induction false} InChildrenBelow(w: World, p: nat, upto: nat, i: nat)
    requires upto <= |w|
    ensures i in ChildrenBelow(w, p, upto) <==> i < upto && IsChild(w, p, i)
    decreases upto
  {
    if upto > 0 { InChildrenBelow(w, p, upto - 1, i); }
  }

  function EffectiveOverall(c: Command): Option<nat> {
    if c.overall.Some? then c.overall else if c.scopes == [] then Some(DEFAULT_OVERALL) else None
  }

  // ------------------------------------------------------------------ counting what is unscoped

  function Unscoped(s: Table): nat {
    if s == [] then 0 else (if s[0].None? then 1 else 0) + Unscoped(s[1..])
  }

  lemma {:induction false} SetScope(s: Table, i: nat, n: nat)
    requires i < |s| && s[i].None?
    ensures Unscoped(s[i := Some(n)]) == Unscoped(s) - 1
    decreases |s|
  {
    if i == 0 {
      assert s[i := Some(n)][1..] == s[1..];
    } else {
      SetScope(s[1..], i - 1, n);
      assert s[i := Some(n)][1..] == s[1..][i - 1 := Some(n)];
    }
  }

  /** Scopes already set are kept. */
  predicate Keeps(s: Table, s': Table) {
    |s| == |s'| && forall i | 0 <= i < |s| :: s[i].Some? ==> s'[i] == s[i]
  }

  // ------------------------------------------------------------------ what justifies a derived scope

  function SumOf(s: Table, kids: seq<nat>): nat {
    if kids == [] then 0
    else
      var k := kids[|kids| - 1];
      SumOf(s, kids[..|kids| - 1]) + if k < |s| && s[k].Some? then s[k].value else 0
  }

  function UnscopedKids(s: Table, kids: seq<nat>): (r: seq<nat>)
    ensures forall k: nat | k in r :: k < |s| && s[k].None?
  {
    if kids == [] then []
    else
      var k := kids[|kids| - 1];
      UnscopedKids(s, kids[..|kids| - 1]) + if k < |s| && s[k].None? then [k] else []
  }

  function Without(kids: seq<nat>, x: nat): seq<nat> {
    if kids == [] then []
    else Without(kids[..|kids| - 1], x) + if kids[|kids| - 1] == x then [] else [kids[|kids| - 1]]
  }

  ghost predicate AllScoped(s: Table, kids: seq<nat>) {
    forall k | k in kids :: k < |s| && s[k].Some?
  }

  function Clamped(a: nat, b: nat): nat {
    if a < b then 0 else a - b
  }

  /** The rule that gives a sig its scope holds of the table. */
  ghost predicate Derived(w: World, overall: Option<nat>, s: Table, i: nat)
    requires |s| == |w|
  {
    && IsScopable(w, i) && s[i].Some?
    && (|| AbstractDerived(w, s, i)
        || (IsTopLevel(w, i) && w[i].isEnum && Children(w, i) == [] && s[i].value == 0)
        || (IsTopLevel(w, i) && s[i] == overall)
        || (w[i].kind.parent.Some? && w[i].kind.parent.value < |w| && s[i] == s[w[i].kind.parent.value]))
  }

  /** The abstract rule's two cases: the children's sum, or the parent's scope less the other children's. */
  ghost predicate AbstractDerived(w: World, s: Table, i: nat)
    requires |s| == |w|
  {
    && IsScopable(w, i) && s[i].Some?
    && (|| (w[i].isAbstract && Children(w, i) != [] && AllScoped(s, Children(w, i)) && s[i].value == SumOf(s, Children(w, i)))
        || (w[i].kind.parent.Some? && Difference(w, s, i, w[i].kind.parent.value)))
  }

  /** The abstract parent's scope less its other children's, and never negative. */
  ghost predicate Difference(w: World, s: Table, i: nat, p: nat)
    requires i < |s|
  {
    && p < |w| == |s| && w[p].isAbstract && s[p].Some? && s[i].Some?
    && AllScoped(s, Without(Children(w, p), i)) && s[i].value == Clamped(s[p].value, SumOf(s, Without(Children(w, p), i)))
  }

  lemma {:induction false} SumKept(s: Table, s': Table, kids: seq<nat>)
    requires Keeps(s, s') && AllScoped(s, kids)
    ensures SumOf(s, kids) == SumOf(s', kids) && AllScoped(s', kids)
    decreases |kids|
  {
    if kids != [] {
      assert kids[|kids| - 1] in kids;
      assert forall k :: k in kids[..|kids| - 1] ==> k in kids;
      SumKept(s, s', kids[..|kids| - 1]);
    }
  }

  lemma AbstractKept(w: World, s: Table, s': Table, i: nat)
    requires |s| == |w| && Keeps(s, s') && AbstractDerived(w, s, i)
    ensures AbstractDerived(w, s', i)
  {
    if AllScoped(s, Children(w, i)) { SumKept(s, s', Children(w, i)); }
    if w[i].kind.parent.Some? && Difference(w, s, i, w[i].kind.parent.value) {
      SumKept(s, s', Without(Children(w, w[i].kind.parent.value), i));
    }
  }

  /** A justification survives whatever is derived later. */
  lemma DerivedKept(w: World, overall: Option<nat>, s: Table, s': Table, i: nat)
    requires |s| == |w| && Keeps(s, s') && Derived(w, overall, s, i)
    ensures Derived(w, overall, s', i)
  {
    if AbstractDerived(w, s, i) { AbstractKept(w, s, s', i); }
  }

  /** Every scope set since `s0` is justified. */
  ghost predicate Justified(w: World, overall: Option<nat>, s0: Table, s: Table) {
    && |s| == |w| && Keeps(s0, s)
    && forall i | 0 <= i < |w| && s[i].Some? && s0[i].None? :: Derived(w, overall, s, i)
  }

  // ------------------------------------------------------------------ the abstract rule's bookkeeping

  lemma FrontAndLast(kids: seq<nat>)
    requires kids != []
    ensures forall k: nat :: k in kids <==> k in kids[..|kids| - 1] || k == kids[|kids| - 1]
  {
    assert kids == kids[..|kids| - 1] + [kids[|kids| - 1]];
  }

  lemma {:induction false} UnscopedKidsMean(s: Table, kids: seq<nat>)
    requires forall k | k in kids :: k < |s|
    ensures forall k: nat :: k in UnscopedKids(s, kids) <==> k in kids && s[k].None?
    ensures UnscopedKids(s, kids) == [] <==> AllScoped(s, kids)
    decreases |kids|
  {
    if kids != [] {
      var front, last := kids[..|kids| - 1], kids[|kids| - 1];
      FrontAndLast(kids);
      assert last in kids;
      forall k: nat | k in front ensures k < |s| { assert k in kids; }
      UnscopedKidsMean(s, front);
      forall k: nat
        ensures k in UnscopedKids(s, kids) <==> k in kids && s[k].None?
      {
        assert k in UnscopedKids(s, kids) <==> k in UnscopedKids(s, front) || (k == last && s[last].None?);
        assert k in kids <==> k in front || k == last;
      }
    }
  }

  lemma {:induction false} SumWithout(s: Table, kids: seq<nat>, x: nat)
    requires x < |s| && s[x].None?
    ensures SumOf(s, kids) == SumOf(s, Without(kids, x))
    ensures forall k: nat :: k in Without(kids, x) <==> k in kids && k != x
    decreases |kids|
  {
    if kids != [] {
      var front, last := kids[..|kids| - 1], kids[|kids| - 1];
      FrontAndLast(kids);
      SumWithout(s, front, x);
      if last != x {
        assert Without(kids, x)[..|Without(kids, x)| - 1] == Without(front, x);
      } else {
        assert Without(kids, x) == Without(front, x);
      }
      forall k: nat
        ensures k in Without(kids, x) <==> k in kids && k != x
      {
        assert k in Without(kids, x) <==> k in Without(front, x) || (k == last && last != x);
        assert k in kids <==> k in front || k == last;
      }
    }
  }

  lemma {:induction false} SumUnset(s: Table, kids: seq<nat>, x: nat, n: nat)
    requires x < |s| && x !in kids
    ensures SumOf(s[x := Some(n)], kids) == SumOf(s, kids)
    decreases |kids|
  {
    if kids != [] {
      assert kids[|kids| - 1] in kids;
      assert forall k :: k in kids[..|kids| - 1] ==> k in kids;
      SumUnset(s, kids[..|kids| - 1], x, n);
    }
  }

  lemma ChildrenBounded(w: World, p: nat)
    ensures forall k: nat :: k in Children(w, p) <==> k < |w| && IsChild(w, p, k)
  {
    forall k: nat { InChildrenBelow(w, p, |w|, k); }
  }

  /** Setting an abstract sig to its children's sum is justified. */
  lemma SumDerived(w: World, rank: seq<nat>, s: Table, i: nat)
    requires GoodWorld(w, rank) && |s| == |w| && IsScopable(w, i) && s[i].None?
    requires w[i].isAbstract && Children(w, i) != [] && UnscopedKids(s, Children(w, i)) == []
    ensures AbstractDerived(w, s[i := Some(SumOf(s, Children(w, i)))], i)
  {
    var kids := Children(w, i);
    ChildrenBounded(w, i);
    UnscopedKidsMean(s, kids);
    assert i !in kids;
    SumUnset(s, kids, i, SumOf(s, kids));
  }

  /** Setting the one unscoped child of a scoped abstract sig to the clamped difference is justified. */
  lemma DifferenceDerived(w: World, rank: seq<nat>, s: Table, p: nat, x: nat)
    requires GoodWorld(w, rank) && |s| == |w| && p < |w| && s[p].Some?
    requires w[p].isAbstract && UnscopedKids(s, Children(w, p)) == [x]
    ensures x < |w| && IsChild(w, p, x) && s[x].None?
    ensures AbstractDerived(w, s[x := Some(Clamped(s[p].value, SumOf(s, Children(w, p))))], x)
  {
    var kids := Children(w, p);
    ChildrenBounded(w, p);
    UnscopedKidsMean(s, kids);
    assert x in UnscopedKids(s, kids);
    var n := Clamped(s[p].value, SumOf(s, kids));
    var s' := s[x := Some(n)];
    SumWithout(s, kids, x);
    SumUnset(s, Without(kids, x), x, n);
    forall k | k in Without(kids, x)
      ensures k < |s'| && s'[k].Some?
    {
      assert k in kids && k != x;
      assert k !in UnscopedKids(s, kids);
    }
    assert Difference(w, s', x, p);
  }

  // ------------------------------------------------------------------ the three passes

  /** A table in the middle of a pass, and whether the pass has changed anything so far. */
  datatype Pass = Pass(table: Table, changed: bool)

  /** How a pass may move the table: nothing set is overwritten, and a change scopes something. */
  ghost predicate Moves(s: Table, p: Pass) {
    && Keeps(s, p.table)
    && (if p.changed then Unscoped(p.table) < Unscoped(s) else Unscoped(p.table) <= Unscoped(s))
  }

  function Set(s: Table, i: nat, n: nat): (r: Pass)
    requires i < |s| && s[i].None?
    ensures Moves(s, r) && r.changed && r.table == s[i := Some(n)]
  {
    SetScope(s, i, n);
    Pass(s[i := Some(n)], true)
  }

  /** The abstract rule at one sig: the children's sum, or the one missing child's difference. */
  function AbstractStep(w: World, s: Table, i: nat): (r: Pass)
    requires |s| == |w| && i < |w|
    ensures Moves(s, r) && (!r.changed ==> r.table == s)
  {
    var kids := Children(w, i);
    var unscoped := UnscopedKids(s, kids);
    if !w[i].isAbstract || kids == [] then Pass(s, false)
    else if s[i].None? && unscoped == [] then Set(s, i, SumOf(s, kids))
    else if s[i].Some? && |unscoped| == 1 then
      assert unscoped[0] in unscoped;
      Set(s, unscoped[0], Clamped(s[i].value, SumOf(s, kids)))
    else Pass(s, false)
  }

  function AbstractPass(w: World, s: Table, upto: nat): (r: Pass)
    requires |s| == |w| && upto <= |w|
    ensures Moves(s, r) && (!r.changed ==> r.table == s)
  {
    if upto == 0 then Pass(s, false)
    else
      var p := AbstractPass(w, s, upto - 1);
      var q := AbstractStep(w, p.table, upto - 1);
      Pass(q.table, p.changed || q.changed)
  }

  /** What an unscoped top-level sig takes: a childless enum takes 0, anything else the overall scope. */
  predicate ZeroEnum(w: World, i: nat)
    requires i < |w|
  {
    w[i].isEnum && Children(w, i) == []
  }

  predicate WantsOverall(w: World, s: Table, i: nat)
    requires |s| == |w|
  {
    IsTopLevel(w, i) && s[i].None? && !ZeroEnum(w, i)
  }

  /** The overall rule at one sig; giving a childless enum its 0 is not counted as a change. */
  function OverallStep(w: World, overall: Option<nat>, s: Table, i: nat): (r: Option<Pass>)
    requires |s| == |w| && i < |w|
    ensures r.Some? ==> Moves(s, r.value)
    ensures r.None? <==> overall.None? && WantsOverall(w, s, i)
  {
    if !IsTopLevel(w, i) || s[i].Some? then Some(Pass(s, false))
    else if ZeroEnum(w, i) then Some(Set(s, i, 0).(changed := false))
    else if overall.Some? then Some(Set(s, i, overall.value))
    else None
  }

  function OverallPass(w: World, overall: Option<nat>, s: Table, upto: nat): (r: Option<Pass>)
    requires |s| == |w| && upto <= |w|
    ensures r.Some? ==> Moves(s, r.value)
  {
    if upto == 0 then Some(Pass(s, false))
    else
      var p :- OverallPass(w, overall, s, upto - 1);
      var q :- OverallStep(w, overall, p.table, upto - 1);
      Some(Pass(q.table, p.changed || q.changed))
  }

  function ParentStep(w: World, s: Table, i: nat): (r: Pass)
    requires |s| == |w| && i < |w|
    ensures Moves(s, r) && (!r.changed ==> r.table == s)
  {
    if !IsScopable(w, i) || s[i].Some? || IsTopLevel(w, i) then Pass(s, false)
    else
      var p := w[i].kind.parent.value;
      if p < |w| && s[p].Some? then Set(s, i, s[p].value) else Pass(s, false)
  }

  function ParentPass(w: World, s: Table, upto: nat): (r: Pass)
    requires |s| == |w| && upto <= |w|
    ensures Moves(s, r) && (!r.changed ==> r.table == s)
  {
    if upto == 0 then Pass(s, false)
    else
      var p := ParentPass(w, s, upto - 1);
      var q := ParentStep(w, p.table, upto - 1);
      Pass(q.table, p.changed || q.changed)
  }

  // ------------------------------------------------------------------ each pass run to exhaustion, then all three

  function AbstractRun(w: World, s: Table): (r: Pass)
    requires |s| == |w|
    ensures Moves(s, r) && (!r.changed ==> r.table == s)
    decreases Unscoped(s)
  {
    var p := AbstractPass(w, s, |w|);
    if p.changed then Pass(AbstractRun(w, p.table).table, true) else p
  }

  function OverallRun(w: World, overall: Option<nat>, s: Table): (r: Option<Pass>)
    requires |s| == |w|
    ensures r.Some? ==> Moves(s, r.value)
    decreases Unscoped(s)
  {
    var p :- OverallPass(w, overall, s, |w|);
    if p.changed then
      var q :- OverallRun(w, overall, p.table);
      Some(Pass(q.table, true))
    else Some(p)
  }

  function ParentRun(w: World, s: Table): (r: Pass)
    requires |s| == |w|
    ensures Moves(s, r) && (!r.changed ==> r.table == s)
    decreases Unscoped(s)
  {
    var p := ParentPass(w, s, |w|);
    if p.changed then Pass(ParentRun(w, p.table).table, true) else p
  }

  /** The whole fixpoint: a rule that changed something is run to exhaustion and the rules start over. */
  function Fixpoint(w: World, overall: Option<nat>, s: Table): (r: Option<Table>)
    requires |s| == |w|
    ensures r.Some? ==> Keeps(s, r.value)
    decreases Unscoped(s)
  {
    var a := AbstractRun(w, s);
    if a.changed then Fixpoint(w, overall, a.table)
    else
      var o :- OverallRun(w, overall, a.table);
      if o.changed then Fixpoint(w, overall, o.table)
      else
        var p := ParentRun(w, o.table);
        if p.changed then Fixpoint(w, overall, p.table) else Some(p.table)
  }

  // ------------------------------------------------------------------ every derived scope is justified

  /** Every scope set between the two tables is the abstract rule's in the later one. */
  ghost predicate ByAbstract(w: World, s: Table, s': Table) {
    && |s| == |s'| == |w| && Keeps(s, s')
    && forall i | 0 <= i < |w| && s'[i].Some? && s[i].None? :: AbstractDerived(w, s', i)
  }

  lemma ByAbstractJoin(w: World, s: Table, t: Table, s': Table)
    requires ByAbstract(w, s, t) && ByAbstract(w, t, s')
    ensures ByAbstract(w, s, s')
  {
    forall i | 0 <= i < |w| && s'[i].Some? && s[i].None?
      ensures AbstractDerived(w, s', i)
    {
      if t[i].Some? { AbstractKept(w, t, s', i); }
    }
  }

  lemma AbstractStepDerives(w: World, rank: seq<nat>, s: Table, i: nat)
    requires GoodWorld(w, rank) && |s| == |w| && i < |w|
    ensures ByAbstract(w, s, AbstractStep(w, s, i).table)
  {
    var kids := Children(w, i);
    var unscoped := UnscopedKids(s, kids);
    if w[i].isAbstract && kids != [] {
      ChildrenBounded(w, i);
      assert kids[0] in kids;
      if s[i].None? && unscoped == [] {
        SumDerived(w, rank, s, i);
      } else if s[i].Some? && |unscoped| == 1 {
        assert unscoped == [unscoped[0]];
        DifferenceDerived(w, rank, s, i, unscoped[0]);
      }
    }
  }

  lemma {:induction false} AbstractPassDerives(w: World, rank: seq<nat>, s: Table, upto: nat)
    requires GoodWorld(w, rank) && |s| == |w| && upto <= |w|
    ensures ByAbstract(w, s, AbstractPass(w, s, upto).table)
    decreases upto
  {
    hide GoodWorld, AbstractDerived, AbstractStep;
    if upto > 0 {
      AbstractPassDerives(w, rank, s, upto - 1);
      var t := AbstractPass(w, s, upto - 1).table;
      AbstractStepDerives(w, rank, t, upto - 1);
      ByAbstractJoin(w, s, t, AbstractStep(w, t, upto - 1).table);
    }
  }

  /** Whatever a run of the abstract rule sets is a sum or a difference in the table it ends with. */
  lemma {:induction false} AbstractRunDerives(w: World, rank: seq<nat>, s: Table)
    requires GoodWorld(w, rank) && |s| == |w|
    ensures ByAbstract(w, s, AbstractRun(w, s).table)
    decreases Unscoped(s)
  {
    hide GoodWorld, AbstractDerived, AbstractPass;
    AbstractPassDerives(w, rank, s, |w|);
    var p := AbstractPass(w, s, |w|);
    if p.changed {
      AbstractRunDerives(w, rank, p.table);
      ByAbstractJoin(w, s, p.table, AbstractRun(w, p.table).table);
    }
  }

  lemma JustifiedNext(w: World, overall: Option<nat>, s0: Table, s: Table, s': Table)
    requires Justified(w, overall, s0, s) && |s'| == |w| && Keeps(s, s')
    requires forall i: nat | i < |w| && s'[i].Some? && s[i].None? :: Derived(w, overall, s', i)
    ensures Justified(w, overall, s0, s')
  {
    forall i | 0 <= i < |w| && s'[i].Some? && s0[i].None?
      ensures Derived(w, overall, s', i)
    {
      if s[i].Some? { DerivedKept(w, overall, s, s', i); }
    }
  }

  // ------------------------------------------------------------------ the abstract rule goes first

  /** The abstract rule has nothing to set. */
  ghost predicate AtRest(w: World, s: Table)
    requires |s| == |w|
  {
    forall i | 0 <= i < |w| :: !AbstractStep(w, s, i).changed
  }

  lemma {:induction false} RestingPass(w: World, s: Table, upto: nat)
    requires |s| == |w| && upto <= |w|
    ensures !AbstractPass(w, s, upto).changed <==> forall i | 0 <= i < upto :: !AbstractStep(w, s, i).changed
    decreases upto
  {
    hide AbstractStep, Unscoped;
    if upto > 0 { RestingPass(w, s, upto - 1); }
  }

  /** What the overall rule sets: top-level sigs, to the overall scope or a childless enum to 0. */
  ghost predicate ByOverall(w: World, overall: Option<nat>, s: Table, i: nat)
    requires |s| == |w|
  {
    IsTopLevel(w, i) && s[i].Some? && s[i] == if ZeroEnum(w, i) then Some(0) else overall
  }

  /** What the parent rule sets: a sig below another, to that sig's scope. */
  ghost predicate ByParent(w: World, s: Table, i: nat)
    requires |s| == |w|
  {
    && IsScopable(w, i) && w[i].kind.parent.Some? && w[i].kind.parent.value < |w|
    && s[i].Some? && s[i] == s[w[i].kind.parent.value]
  }

  lemma {:induction false} OverallPassSets(w: World, overall: Option<nat>, s: Table, upto: nat)
    requires |s| == |w| && upto <= |w| && OverallPass(w, overall, s, upto).Some?
    ensures var p := OverallPass(w, overall, s, upto).value;
      forall i: nat | i < |w| :: p.table[i] == s[i]
        || (s[i].None? && ByOverall(w, overall, p.table, i) && (!p.changed ==> Children(w, i) == []))
    decreases upto
  {
    if upto > 0 { OverallPassSets(w, overall, s, upto - 1); }
  }

  lemma {:induction false} OverallRunSets(w: World, overall: Option<nat>, s: Table)
    requires |s| == |w| && OverallRun(w, overall, s).Some?
    ensures var p := OverallRun(w, overall, s).value;
      forall i: nat | i < |w| :: p.table[i] == s[i]
        || (s[i].None? && ByOverall(w, overall, p.table, i) && (!p.changed ==> Children(w, i) == []))
    decreases Unscoped(s)
  {
    hide OverallPass, Children;
    OverallPassSets(w, overall, s, |w|);
    var p := OverallPass(w, overall, s, |w|).value;
    if p.changed { OverallRunSets(w, overall, p.table); }
  }

  lemma {:induction false} ParentPassSets(w: World, s: Table, upto: nat)
    requires |s| == |w| && upto <= |w|
    ensures var t := ParentPass(w, s, upto).table;
      forall i: nat | i < |w| :: t[i] == s[i] || (s[i].None? && ByParent(w, t, i))
    decreases upto
  {
    if upto > 0 { ParentPassSets(w, s, upto - 1); }
  }

  lemma {:induction false} ParentRunSets(w: World, s: Table)
    requires |s| == |w|
    ensures var t := ParentRun(w, s).table;
      forall i: nat | i < |w| :: t[i] == s[i] || (s[i].None? && ByParent(w, t, i))
    decreases Unscoped(s)
  {
    hide ParentPass;
    ParentPassSets(w, s, |w|);
    var p := ParentPass(w, s, |w|);
    if p.changed { ParentRunSets(w, p.table); }
  }

  lemma AbstractRunJustified(w: World, overall: Option<nat>, rank: seq<nat>, s0: Table, s: Table)
    requires GoodWorld(w, rank) && Justified(w, overall, s0, s)
    ensures Justified(w, overall, s0, AbstractRun(w, s).table)
  {
    hide AbstractRun;
    AbstractRunDerives(w, rank, s);
    JustifiedNext(w, overall, s0, s, AbstractRun(w, s).table);
  }

  lemma OverallRunJustified(w: World, overall: Option<nat>, s0: Table, s: Table)
    requires Justified(w, overall, s0, s) && OverallRun(w, overall, s).Some?
    ensures Justified(w, overall, s0, OverallRun(w, overall, s).value.table)
  {
    hide OverallRun, AbstractDerived;
    OverallRunSets(w, overall, s);
    JustifiedNext(w, overall, s0, s, OverallRun(w, overall, s).value.table);
  }

  lemma ParentRunJustified(w: World, overall: Option<nat>, s0: Table, s: Table)
    requires Justified(w, overall, s0, s)
    ensures Justified(w, overall, s0, ParentRun(w, s).table)
  {
    hide ParentRun, AbstractDerived;
    ParentRunSets(w, s);
    JustifiedNext(w, overall, s0, s, ParentRun(w, s).table);
  }

  /** Scopes set at the start are kept, and each derived one still satisfies its rule in the final table. */
  lemma {:induction false} FixpointJustified(w: World, overall: Option<nat>, rank: seq<nat>, s0: Table, s: Table)
    requires GoodWorld(w, rank) && Justified(w, overall, s0, s) && Fixpoint(w, overall, s).Some?
    ensures Justified(w, overall, s0, Fixpoint(w, overall, s).value)
    decreases Unscoped(s)
  {
    assert |s| == |w|;
    hide Justified;
    var a := AbstractRun(w, s);
    AbstractRunJustified(w, overall, rank, s0, s);
    if a.changed {
      FixpointJustified(w, overall, rank, s0, a.table);
    } else {
      OverallRunJustified(w, overall, s0, a.table);
      var o := OverallRun(w, overall, a.table).value;
      if o.changed {
        FixpointJustified(w, overall, rank, s0, o.table);
      } else {
        ParentRunJustified(w, overall, s0, o.table);
        var p := ParentRun(w, o.table);
        if p.changed { FixpointJustified(w, overall, rank, s0, p.table); }
      }
    }
  }

  /** Scoping top-level sigs without children gives the abstract rule nothing to do. */
  lemma StillAtRest(w: World, s: Table, s': Table)
    requires |s| == |w| == |s'| && AtRest(w, s)
    requires forall i: nat | i < |w| :: s'[i] == s[i] || (IsTopLevel(w, i) && Children(w, i) == [])
    ensures AtRest(w, s')
  {
    forall i | 0 <= i < |w|
      ensures !AbstractStep(w, s', i).changed
    {
      assert !AbstractStep(w, s, i).changed;
      ChildrenBounded(w, i);
      if Children(w, i) != [] { SameKids(s, s', Children(w, i)); }
    }
  }

  lemma {:induction false} SameKids(s: Table, s': Table, kids: seq<nat>)
    requires |s| == |s'| && forall k | k in kids :: k < |s| && s[k] == s'[k]
    ensures UnscopedKids(s, kids) == UnscopedKids(s', kids)
    decreases |kids|
  {
    if kids != [] {
      FrontAndLast(kids);
      assert kids[|kids| - 1] in kids;
      SameKids(s, s', kids[..|kids| - 1]);
    }
  }

  /** How a sig came by its scope: by the abstract rule, or by a run of the overall or the parent rule that
      started where the abstract rule had nothing to set, the parent rule's where every top-level sig
      was scoped too. */
  ghost predicate Origin(w: World, overall: Option<nat>, s0: Table, s: Table, i: nat)
    requires |s| == |w| == |s0|
  {
    || AbstractDerived(w, s, i)
    || exists t :: Started(w, overall, s0, t, s, i)
  }

  ghost predicate Started(w: World, overall: Option<nat>, s0: Table, t: Table, s: Table, i: nat)
    requires |s| == |w| == |s0|
  {
    && Keeps(s0, t) && Keeps(t, s) && AtRest(w, t) && i < |w| && t[i].None?
    && (|| ByOverall(w, overall, s, i)
        || (ByParent(w, s, i) && forall j: nat | IsTopLevel(w, j) :: t[j].Some?))
  }

  ghost predicate Origins(w: World, overall: Option<nat>, s0: Table, s: Table) {
    && |s| == |w| == |s0| && Keeps(s0, s)
    && forall i | 0 <= i < |w| && s[i].Some? && s0[i].None? :: Origin(w, overall, s0, s, i)
  }

  lemma OriginKept(w: World, overall: Option<nat>, s0: Table, s: Table, s': Table, i: nat)
    requires |s| == |w| == |s0| && Keeps(s, s') && Origin(w, overall, s0, s, i)
    ensures Origin(w, overall, s0, s', i)
  {
    if AbstractDerived(w, s, i) {
      AbstractKept(w, s, s', i);
    } else {
      var t :| Started(w, overall, s0, t, s, i);
      assert Started(w, overall, s0, t, s', i);
    }
  }

  lemma OriginsNext(w: World, overall: Option<nat>, s0: Table, s: Table, s': Table)
    requires Origins(w, overall, s0, s) && Keeps(s, s')
    requires forall i: nat | i < |w| && s'[i].Some? && s[i].None? :: Origin(w, overall, s0, s', i)
    ensures Origins(w, overall, s0, s')
  {
    forall i | 0 <= i < |w| && s'[i].Some? && s0[i].None?
      ensures Origin(w, overall, s0, s', i)
    {
      if s[i].Some? { OriginKept(w, overall, s0, s, s', i); }
    }
  }

  lemma AbstractOrigins(w: World, overall: Option<nat>, rank: seq<nat>, s0: Table, s: Table)
    requires GoodWorld(w, rank) && Origins(w, overall, s0, s)
    ensures Origins(w, overall, s0, AbstractRun(w, s).table)
  {
    hide GoodWorld, AbstractDerived, AbstractRun;
    AbstractRunDerives(w, rank, s);
    OriginsNext(w, overall, s0, s, AbstractRun(w, s).table);
  }

  lemma OverallOrigins(w: World, overall: Option<nat>, s0: Table, s: Table)
    requires Origins(w, overall, s0, s) && AtRest(w, s) && OverallRun(w, overall, s).Some?
    ensures Origins(w, overall, s0, OverallRun(w, overall, s).value.table)
  {
    hide OverallRun, AtRest, AbstractDerived, ByOverall;
    OverallRunSets(w, overall, s);
    var t := OverallRun(w, overall, s).value.table;
    forall i: nat | i < |w| && t[i].Some? && s[i].None?
      ensures Origin(w, overall, s0, t, i)
    {
      assert Started(w, overall, s0, s, t, i);
    }
    OriginsNext(w, overall, s0, s, t);
  }

  lemma ParentOrigins(w: World, overall: Option<nat>, s0: Table, s: Table)
    requires Origins(w, overall, s0, s) && AtRest(w, s) && forall j: nat | IsTopLevel(w, j) :: s[j].Some?
    ensures Origins(w, overall, s0, ParentRun(w, s).table)
  {
    hide ParentRun, AtRest, AbstractDerived, ByParent, IsTopLevel;
    ParentRunSets(w, s);
    var t := ParentRun(w, s).table;
    forall i: nat | i < |w| && t[i].Some? && s[i].None?
      ensures Origin(w, overall, s0, t, i)
    {
      assert Started(w, overall, s0, s, t, i);
    }
    OriginsNext(w, overall, s0, s, t);
  }

  lemma QuietOverall(w: World, overall: Option<nat>, s: Table)
    requires |s| == |w| && AtRest(w, s) && OverallRun(w, overall, s).Some? && !OverallRun(w, overall, s).value.changed
    ensures AtRest(w, OverallRun(w, overall, s).value.table)
    ensures forall j: nat | IsTopLevel(w, j) :: OverallRun(w, overall, s).value.table[j].Some?
  {
    hide OverallRun, AtRest;
    OverallRunSets(w, overall, s);
    StillAtRest(w, s, OverallRun(w, overall, s).value.table);
    forall j: nat | IsTopLevel(w, j) ensures OverallRun(w, overall, s).value.table[j].Some? { OverallRunCovers(w, overall, s, j); }
  }

  /** The abstract rule has priority: in the final table every derived scope is a sum or a difference, or was
      set by a run of another rule that began where the abstract rule had nothing to set. */
  lemma {:induction false} FixpointOrigins(w: World, overall: Option<nat>, rank: seq<nat>, s0: Table, s: Table)
    requires GoodWorld(w, rank) && Origins(w, overall, s0, s) && Fixpoint(w, overall, s).Some?
    ensures Origins(w, overall, s0, Fixpoint(w, overall, s).value)
    decreases Unscoped(s)
  {
    assert |s| == |w|;
    hide Origins, AtRest;
    AbstractOrigins(w, overall, rank, s0, s);
    var a := AbstractRun(w, s);
    if a.changed {
      FixpointOrigins(w, overall, rank, s0, a.table);
    } else {
      AbstractRunRests(w, s);
      OverallOrigins(w, overall, s0, a.table);
      var o := OverallRun(w, overall, a.table).value;
      if o.changed {
        FixpointOrigins(w, overall, rank, s0, o.table);
      } else {
        QuietOverall(w, overall, a.table);
        ParentOrigins(w, overall, s0, o.table);
        var p := ParentRun(w, o.table);
        if p.changed { FixpointOrigins(w, overall, rank, s0, p.table); }
      }
    }
  }

  lemma {:induction false} AbstractRunRests(w: World, s: Table)
    requires |s| == |w|
    ensures AtRest(w, AbstractRun(w, s).table)
    decreases Unscoped(s)
  {
    RestingPass(w, s, |w|);
    var p := AbstractPass(w, s, |w|);
    if p.changed { AbstractRunRests(w, p.table); }
  }

  /** `sig A {} abstract sig B extends A {} sig C, D extends B {}`. */
  function Tower(): World {
    [Sig(Prim(None), false, false, false, None), Sig(Prim(Some(0)), true, false, false, None),
     Sig(Prim(Some(1)), false, false, false, None), Sig(Prim(Some(1)), false, false, false, None)]
  }

  lemma TowerChildren()
    ensures var w := Tower(); Children(w, 0) == [1] && Children(w, 1) == [2, 3] && Children(w, 2) == [] && Children(w, 3) == []
  {
    var w := Tower();
    forall p: nat | p < 4
      ensures Children(w, p) == if p == 0 then [1] else if p == 1 then [2, 3] else []
    {
      assert ChildrenBelow(w, p, 1) == [];
      assert ChildrenBelow(w, p, 2) == if p == 0 then [1] else [];
      assert ChildrenBelow(w, p, 3) == if p == 0 then [1] else if p == 1 then [2] else [];
    }
  }

  /** The scopes `n` for the tower's top and its middle, 2 for the first leaf, and the last leaf's. */
  function TowerTable(middle: Option<nat>, leaf: Option<nat>): Table {
    [Some(5), middle, Some(2), leaf]
  }

  lemma TowerKids(middle: Option<nat>)
    ensures UnscopedKids(TowerTable(middle, None), [2, 3]) == [3] && SumOf(TowerTable(middle, None), [2, 3]) == 2
    ensures UnscopedKids(TowerTable(None, None), [1]) == [1]
  {
    var s := TowerTable(middle, None);
    assert [2, 3][..1] == [2] && [2][..0] == [] && [1][..0] == [];
    assert UnscopedKids(s, [2]) == [] && SumOf(s, [2]) == 2;
  }

  lemma TowerPass()
    ensures ParentPass(Tower(), TowerTable(None, None), 4).table == TowerTable(Some(5), Some(5))
  {
    var w, s := Tower(), TowerTable(None, None);
    assert ParentPass(w, s, 0).table == s;
    assert ParentPass(w, s, 1).table == s;
    assert ParentPass(w, s, 2).table == TowerTable(Some(5), None) by { assert s[1 := Some(5)] == TowerTable(Some(5), None); }
    assert ParentPass(w, s, 3).table == TowerTable(Some(5), None);
    assert TowerTable(Some(5), None)[3 := Some(5)] == TowerTable(Some(5), Some(5));
  }

  lemma TowerSteps(middle: Option<nat>, i: nat)
    requires i < 4
    ensures AbstractStep(Tower(), TowerTable(middle, None), i)
            == if i == 1 && middle.Some? then Pass(TowerTable(middle, Some(Clamped(middle.value, 2))), true) else Pass(TowerTable(middle, None), false)
  {
    TowerChildren();
    TowerKids(middle);
    if i == 1 && middle.Some? {
      assert TowerTable(middle, None)[3 := Some(Clamped(middle.value, 2))] == TowerTable(middle, Some(Clamped(middle.value, 2)));
    }
  }

  /** Inside one run of the parent rule the abstract rule is not consulted again: with 5 A and 2 C both B and
      D take 5 in one pass, though once B has 5 the abstract rule alone would leave D 3. */
  lemma ParentRunsOn()
    ensures AtRest(Tower(), TowerTable(None, None))
    ensures ParentPass(Tower(), TowerTable(None, None), 4).table == TowerTable(Some(5), Some(5))
    ensures AbstractStep(Tower(), TowerTable(Some(5), None), 1).table == TowerTable(Some(5), Some(3))
  {
    TowerPass();
    TowerSteps(Some(5), 1);
    forall i: nat | i < 4 ensures !AbstractStep(Tower(), TowerTable(None, None), i).changed { TowerSteps(None, i); }
  }

  // ------------------------------------------------------------------ success leaves nothing unscoped

  lemma {:induction false} OverallPassCovers(w: World, overall: Option<nat>, s: Table, upto: nat, i: nat)
    requires |s| == |w| && i < upto <= |w| && IsTopLevel(w, i) && OverallPass(w, overall, s, upto).Some?
    ensures OverallPass(w, overall, s, upto).value.table[i].Some?
    decreases upto
  {
    if i < upto - 1 { OverallPassCovers(w, overall, s, upto - 1, i); }
  }

  lemma {:induction false} OverallRunCovers(w: World, overall: Option<nat>, s: Table, i: nat)
    requires |s| == |w| && i < |w| && IsTopLevel(w, i) && OverallRun(w, overall, s).Some?
    ensures OverallRun(w, overall, s).value.table[i].Some?
    decreases Unscoped(s)
  {
    OverallPassCovers(w, overall, s, |w|, i);
  }

  /** One parent pass scopes every unscoped child of a sig that was scoped before it, all siblings alike. */
  lemma {:induction false} ParentPassTogether(w: World, s: Table, upto: nat, p: nat, i: nat)
    requires |s| == |w| && i < upto <= |w| && IsChild(w, p, i) && p < |w| && s[p].Some? && s[i].None?
    ensures ParentPass(w, s, upto).table[i] == s[p]
    decreases upto
  {
    var t := ParentPass(w, s, upto - 1).table;
    if i < upto - 1 {
      ParentPassTogether(w, s, upto - 1, p, i);
    } else {
      ParentPassLeaves(w, s, upto - 1, i);
      assert t[p] == s[p];
    }
  }

  lemma {:induction false} ParentPassLeaves(w: World, s: Table, upto: nat, i: nat)
    requires |s| == |w| && upto <= i < |w|
    ensures ParentPass(w, s, upto).table[i] == s[i]
    decreases upto
  {
    if upto > 0 { ParentPassLeaves(w, s, upto - 1, i); }
  }

  lemma {:induction false} ScopedByRank(w: World, rank: seq<nat>, s: Table, i: nat)
    requires GoodWorld(w, rank) && |s| == |w| && IsScopable(w, i)
    requires forall j: nat | IsTopLevel(w, j) :: s[j].Some?
    requires !ParentPass(w, s, |w|).changed
    ensures s[i].Some?
    decreases rank[i]
  {
    if w[i].kind.parent.Some? {
      var p := w[i].kind.parent.value;
      ScopedByRank(w, rank, s, p);
      if s[i].None? { ParentPassTogether(w, s, |w|, p, i); }
    }
  }

  /** On success every scopable sig has a scope, so the later check for a sig without one cannot fail. */
  lemma {:induction false} FixpointTotal(w: World, overall: Option<nat>, rank: seq<nat>, s: Table)
    requires GoodWorld(w, rank) && |s| == |w| && Fixpoint(w, overall, s).Some?
    ensures forall i: nat | IsScopable(w, i) :: Fixpoint(w, overall, s).value[i].Some?
    decreases Unscoped(s)
  {
    var a := AbstractRun(w, s);
    if a.changed {
      FixpointTotal(w, overall, rank, a.table);
    } else {
      var o := OverallRun(w, overall, a.table).value;
      if o.changed {
        FixpointTotal(w, overall, rank, o.table);
      } else {
        var p := ParentRun(w, o.table);
        if p.changed {
          FixpointTotal(w, overall, rank, p.table);
        } else {
          forall j: nat | IsTopLevel(w, j) ensures p.table[j].Some? { OverallRunCovers(w, overall, a.table, j); }
          forall i: nat | IsScopable(w, i) ensures p.table[i].Some? { ScopedByRank(w, rank, p.table, i); }
        }
      }
    }
  }

  // ------------------------------------------------------------------ exactly when a scope must be specified

  /** A top-level sig that only an overall scope could cover. */
  ghost predicate Stranded(w: World, s: Table)
    requires |s| == |w|
  {
    StrandedBelow(w, s, |w|)
  }

  ghost predicate StrandedBelow(w: World, s: Table, upto: nat)
    requires |s| == |w|
  {
    exists i: nat | i < upto :: WantsOverall(w, s, i)
  }

  lemma {:induction false} OverallPassFails(w: World, overall: Option<nat>, s: Table, upto: nat)
    requires |s| == |w| && upto <= |w|
    ensures OverallPass(w, overall, s, upto).None? <==> overall.None? && StrandedBelow(w, s, upto)
    ensures OverallPass(w, overall, s, upto).Some? ==>
              forall i: nat | upto <= i < |w| :: OverallPass(w, overall, s, upto).value.table[i] == s[i]
    decreases upto
  {
    hide Children, StrandedBelow;
    if upto == 0 {
      NoneBelow(w, s);
    } else {
      OverallPassFails(w, overall, s, upto - 1);
      StrandedNext(w, s, upto);
      var p := OverallPass(w, overall, s, upto - 1);
      if p.Some? {
        var q := OverallStep(w, overall, p.value.table, upto - 1);
        assert WantsOverall(w, p.value.table, upto - 1) <==> WantsOverall(w, s, upto - 1);
        assert q.None? <==> overall.None? && WantsOverall(w, s, upto - 1);
      }
    }
  }

  lemma NoneBelow(w: World, s: Table)
    requires |s| == |w|
    ensures !StrandedBelow(w, s, 0)
  {
  }

  lemma StrandedNext(w: World, s: Table, upto: nat)
    requires |s| == |w| && 0 < upto <= |w|
    ensures StrandedBelow(w, s, upto) <==> StrandedBelow(w, s, upto - 1) || WantsOverall(w, s, upto - 1)
  {
  }

  lemma {:induction false} OverallRunFails(w: World, overall: Option<nat>, s: Table)
    requires |s| == |w|
    ensures OverallRun(w, overall, s).None? <==> overall.None? && Stranded(w, s)
    decreases Unscoped(s)
  {
    OverallPassFails(w, overall, s, |w|);
    var p := OverallPass(w, overall, s, |w|);
    if p.Some? && p.value.changed {
      OverallRunFails(w, overall, p.value.table);
      forall i: nat ensures !WantsOverall(w, p.value.table, i) {
        if IsTopLevel(w, i) { OverallPassCovers(w, overall, s, |w|, i); }
      }
    }
  }

  lemma {:induction false} NeverStranded(w: World, overall: Option<nat>, s: Table)
    requires |s| == |w| && (overall.Some? || !Stranded(w, s))
    ensures Fixpoint(w, overall, s).Some?
    decreases Unscoped(s)
  {
    var a := AbstractRun(w, s);
    StillCovered(w, s, a.table);
    if a.changed {
      NeverStranded(w, overall, a.table);
    } else {
      OverallRunFails(w, overall, a.table);
      var o := OverallRun(w, overall, a.table).value;
      StillCovered(w, a.table, o.table);
      if o.changed {
        NeverStranded(w, overall, o.table);
      } else {
        var p := ParentRun(w, o.table);
        StillCovered(w, o.table, p.table);
        if p.changed { NeverStranded(w, overall, p.table); }
      }
    }
  }

  lemma StillCovered(w: World, s: Table, s': Table)
    requires |s| == |w| && Keeps(s, s')
    ensures Stranded(w, s') ==> Stranded(w, s)
  {
    if Stranded(w, s') {
      var i: nat :| i < |w| && WantsOverall(w, s', i);
      assert WantsOverall(w, s, i);
    }
  }

  lemma {:induction false} AbstractRunSettles(w: World, s: Table)
    requires |s| == |w|
    ensures AbstractRun(w, AbstractRun(w, s).table) == Pass(AbstractRun(w, s).table, false)
    decreases Unscoped(s)
  {
    var p := AbstractPass(w, s, |w|);
    if p.changed { AbstractRunSettles(w, p.table); }
  }

  /** Scoping fails exactly when no overall scope is in force and the abstract rule, run to exhaustion on the
      seeded scopes, leaves a top-level sig (other than a childless enum) without one. */
  lemma FixpointFails(w: World, overall: Option<nat>, s: Table)
    requires |s| == |w|
    ensures Fixpoint(w, overall, s).None? <==> overall.None? && Stranded(w, AbstractRun(w, s).table)
  {
    var a := AbstractRun(w, s);
    AbstractRunSettles(w, s);
    OverallRunFails(w, overall, a.table);
    if overall.Some? || !Stranded(w, a.table) {
      NeverStranded(w, overall, a.table);
      assert a.changed ==> Fixpoint(w, overall, s) == Fixpoint(w, overall, a.table);
      if !a.changed { assert a.table == s; }
    } else {
      assert Fixpoint(w, overall, a.table).None?;
    }
  }
}
