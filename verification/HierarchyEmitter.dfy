/** The second half of the bounds build (crates/als-core/src/bounds_builder.rs): relations for leaves and
    remainders, memoised denotations, and the constraint formulas sig by sig. */
module HierarchyEmission {
  import opened Wrappers
  import opened SigForest
  import opened Ir
  import opened Folder
  import opened Plain
  import opened Lowering
  import opened LoweringMeaning
  import opened SizeWitness
  import opened SigBounds
  import opened BoundsBuilding

  /** What the earlier phases left for one sig. */
  ghost predicate Prepared(scope: map<nat, nat>, lower: AtomSets, upper: AtomSets, q: Place) {
    q.t.sig in scope && scope[q.t.sig] == FinalScope(q.t) && HasLower(lower, q) && HasUpper(upper, q)
  }

  /** The sig's own relation is allocated and bound. */
  ghost predicate BoundAt(r: Rels, bounds: map<RelId, RelBound>, q: Place) {
    && (q.t.kids == [] ==> q.t.sig in r.leaf && r.leaf[q.t.sig] in bounds && bounds[r.leaf[q.t.sig]] == OwnBound(q))
    && (q.t.sig in r.remainder ==> HasRemainder(q.t))
    && (HasRemainder(q.t) ==>
          q.t.sig in r.remainder && r.remainder[q.t.sig] in bounds && bounds[r.remainder[q.t.sig]] == OwnBound(q))
  }

  ghost predicate InsideTable(i: Inst, bounds: map<RelId, RelBound>) {
    forall x | x in bounds :: Between(bounds[x], RelValue(i, x))
  }

  lemma InsidePlace(i: Inst, r: Rels, bounds: map<RelId, RelBound>, q: Place)
    requires InsideTable(i, bounds) && BoundAt(r, bounds, q)
    ensures PlaceInside(i, r, q)
  {
    hide OwnBound;
  }

  // ------------------------------------------------------------------ building expressions and formulas

  method BuildUnion(parts: seq<RelExpr>) returns (acc: RelExpr)
    ensures acc == UnionOf(parts)
  {
    if parts == [] { return RConst(CNone); }
    acc := parts[0];
    var k := 1;
    while k < |parts|
      invariant 1 <= k <= |parts| && acc == UnionOf(parts[..k])
    {
      assert parts[..k + 1][..k] == parts[..k];
      acc := RBin(Union, acc, parts[k]);
      k := k + 1;
    }
    assert parts[..k] == parts;
  }

  /** Wraps innermost first, so the first variable is the outermost. */
  method WrapWitnesses(d: RelExpr, n: nat, v: VarId, inner: Formula) returns (body: Formula)
    ensures body == WrapQuants(QSome, VarDecls(v, n, d), inner)
  {
    body := inner;
    GroupLength(v, n, d);
    var k := n;
    while k > 0
      invariant 0 <= k <= n && body == WrapQuants(QSome, VarDecls(v, n, d)[k..], inner)
    {
      var fo := VarDecls(v, n, d)[k - 1..];
      assert fo[0] == CompDecl(v + k - 1, d) && fo[1..] == VarDecls(v, n, d)[k..];
      body := Quant(QSome, v + k - 1, d, body);
      k := k - 1;
    }
    assert VarDecls(v, n, d)[0..] == VarDecls(v, n, d);
  }

  method BuildSizeWitness(d: RelExpr, n: nat, v: VarId) returns (f: Formula)
    ensures f == AtMostWitness(d, n, v)
  {
    var all := BuildUnion(VarRange(v, n));
    f := WrapWitnesses(d, n, v, RelCompare(Equal, all, d));
  }

  method BuildSizeWitnessExact(d: RelExpr, n: nat, v: VarId) returns (f: Formula)
    requires n >= 1
    ensures f == ExactWitness(d, n, v)
  {
    var all := BuildUnion(VarRange(v, n));
    var parts := [RelCompare(Equal, all, d)];
    var k := 1;
    while k < n
      invariant 1 <= k <= n && parts == [RelCompare(Equal, UnionOf(VarRange(v, n)), d)] + StagedDisjoint(k, v)
    {
      assert VarRange(v, n)[..k] == VarRange(v, k);
      var prev := BuildUnion(VarRange(v, n)[..k]);
      parts := parts + [MultTest(TNo, RBin(Intersect, Var(v + k), prev))];
      k := k + 1;
    }
    f := WrapWitnesses(d, n, v, if |parts| == 1 then parts[0] else And(parts));
  }

  /** One row of the sibling pairs: the first against each later one. */
  function PairRow(group: seq<RelExpr>, upto: nat): seq<Formula>
    requires 1 <= upto <= |group|
  {
    if upto == 1 then [] else PairRow(group, upto - 1) + [MultTest(TNo, RBin(Intersect, group[0], group[upto - 1]))]
  }

  lemma {:induction false} RowIsHead(group: seq<RelExpr>, upto: nat)
    requires 1 <= upto <= |group|
    ensures |PairRow(group, upto)| == upto - 1
    ensures forall j | 0 <= j < upto - 1 :: PairRow(group, upto)[j] == MultTest(TNo, RBin(Intersect, group[0], group[j + 1]))
    decreases upto
  {
    if upto > 1 { RowIsHead(group, upto - 1); }
  }

  lemma PairsByRow(group: seq<RelExpr>)
    requires group != []
    ensures PairDisjoint(group) == PairRow(group, |group|) + PairDisjoint(group[1..])
  {
    hide PairRow, PairDisjoint;
    RowIsHead(group, |group|);
    SameRow(group, PairRow(group, |group|));
  }

  lemma SameRow(group: seq<RelExpr>, row: seq<Formula>)
    requires group != [] && |row| == |group| - 1
    requires forall j | 0 <= j < |row| :: row[j] == MultTest(TNo, RBin(Intersect, group[0], group[j + 1]))
    ensures PairDisjoint(group) == row + PairDisjoint(group[1..])
  {
    assert row == seq(|group| - 1, j requires 0 <= j < |group| - 1 => MultTest(TNo, RBin(Intersect, group[0], group[j + 1])));
  }

  class HierarchyEmitter {
    const nodes: seq<Option<Node>>
    const scope: map<nat, nat>
    const lower: AtomSets
    const upper: AtomSets
    ghost const forest: seq<Node>
    var leafRel: map<nat, RelId>
    var remainderRel: map<nat, RelId>
    var bounds: map<RelId, RelBound>
    var sigDenote: map<nat, RelExpr>
    var constraints: seq<Formula>
    var nextRel: RelId
    var nextVar: VarId

    /** The inputs fit the forest. */
    ghost predicate Ready() {
      && AllDistinct(forest) && Indexed(forest, nodes)
      && forall q | q in AllPlaces(forest) :: Prepared(scope, lower, upper, q)
    }

    ghost function Table(): Rels
      reads this`leafRel, this`remainderRel
    {
      Rels(leafRel, remainderRel)
    }

    /** Ids are handed out upwards. */
    ghost predicate Fresh()
      reads this`leafRel, this`remainderRel, this`bounds, this`nextRel
    {
      RelsBelow(Table(), nextRel) && forall x | x in bounds :: x < nextRel
    }

    /** A remembered denotation is the sig's denotation. */
    ghost predicate Memo()
      reads this`leafRel, this`remainderRel, this`sigDenote
    {
      forall x | x in sigDenote :: x < |nodes| && nodes[x].Some? && sigDenote[x] == Denote(Table(), nodes[x].value)
    }

    constructor (ghost trees: seq<Node>, index: seq<Option<Node>>, scopes: map<nat, nat>, low: AtomSets, up: AtomSets,
                 table: map<RelId, RelBound>, firstRel: RelId, firstVar: VarId)
      requires AllDistinct(trees) && Indexed(trees, index) && forall q | q in AllPlaces(trees) :: Prepared(scopes, low, up, q)
      requires forall x | x in table :: x < firstRel
      ensures Ready() && Fresh() && Memo() && forest == trees && nodes == index && scope == scopes && lower == low && upper == up
      ensures leafRel == map[] && remainderRel == map[]
      ensures constraints == [] && bounds == table && nextVar == firstVar && sigDenote == map[]
    {
      forest, nodes, scope, lower, upper := trees, index, scopes, low, up;
      leafRel, remainderRel, bounds, sigDenote, constraints := map[], map[], table, map[], [];
      nextRel, nextVar := firstRel, firstVar;
    }

    /** The place of an indexed sig. */
    lemma PlaceAt(x: nat) returns (q: Place)
      requires Ready() && x < |nodes| && nodes[x].Some?
      ensures q in AllPlaces(forest) && q.t == nodes[x].value && q.t.sig == x && Prepared(scope, lower, upper, q)
      ensures forall q' | q' in AllPlaces(forest) && q'.t.sig == x :: q' == q
    {
      assert Stands(forest, x);
      q :| q in AllPlaces(forest) && q.t.sig == x;
      forall q' | q' in AllPlaces(forest) && q'.t.sig == x ensures q' == q { ForestPlaceOfSig(forest, q, q'); }
    }

    /** The children of a place are prepared too. */
    lemma KidsPrepared(q: Place)
      requires Ready() && q in AllPlaces(forest)
      ensures forall k: nat | k < |q.t.kids| :: Kid(q, k) in AllPlaces(forest) && HasLower(lower, Kid(q, k))
    {
      hide HasLower, HasUpper;
      forall k: nat | k < |q.t.kids| ensures Kid(q, k) in AllPlaces(forest) && HasLower(lower, Kid(q, k)) {
        KidInForest(forest, q, k);
        assert Prepared(scope, lower, upper, Kid(q, k));
      }
    }

    method AllocPrimRelations()
      requires Ready() && Fresh() && leafRel == map[] && remainderRel == map[]
      modifies this`leafRel, this`remainderRel, this`bounds, this`nextRel
      ensures Fresh() && forall q | q in AllPlaces(forest) :: BoundAt(Table(), bounds, q)
    {
      hide Ready, AllPlaces, Floating, OwnBound, BoundAt;
      var x := 0;
      while x < |nodes|
        invariant x <= |nodes| && Fresh() && forall s | s in remainderRel :: s < x
        invariant forall q | q in AllPlaces(forest) && q.t.sig < x :: BoundAt(Table(), bounds, q)
      {
        if nodes[x].Some? {
          ghost var q := PlaceAt(x);
          ghost var r, b := Table(), bounds;
          AllocOne(x, nodes[x].value, q);
          forall q' | q' in AllPlaces(forest) && q'.t.sig < x + 1 ensures BoundAt(Table(), bounds, q') {
            if q'.t.sig < x { BoundKept(r, b, Table(), bounds, q', x, nextRel); } else { assert q' == q; }
          }
        } else {
          forall q | q in AllPlaces(forest) ensures q.t.sig != x { InIndex(q); }
        }
        x := x + 1;
      }
      forall q | q in AllPlaces(forest) ensures q.t.sig < |nodes| { InIndex(q); }
    }

    lemma InIndex(q: Place)
      requires Ready() && q in AllPlaces(forest)
      ensures q.t.sig < |nodes| && nodes[q.t.sig] == Some(q.t)
    {
    }

    method AllocOne(x: nat, t: Node, ghost q: Place)
      requires Ready() && Fresh() && q in AllPlaces(forest) && q.t == t && t.sig == x && Prepared(scope, lower, upper, q)
      requires x !in remainderRel
      modifies this`leafRel, this`remainderRel, this`bounds, this`nextRel
      ensures Fresh() && BoundAt(Table(), bounds, q) && AllocatedOne(old(Table()), old(bounds), Table(), bounds, x)
    {
      hide Floating, Lower, Upper, AllPlaces, Places, Ready;
      if t.kids == [] {
        var rel := nextRel;
        bounds := bounds[rel := RelBound(Unary(lower[x]), Unary(upper[x]))];
        leafRel := leafRel[x := rel];
        nextRel := nextRel + 1;
      } else if !t.isAbstract {
        KidsPrepared(q);
        var floating := FloatingAtoms(lower, upper, t, q);
        var rel := nextRel;
        bounds := bounds[rel := RelBound(if t.exact then Unary(floating) else {}, Unary(floating))];
        remainderRel := remainderRel[x := rel];
        nextRel := nextRel + 1;
      }
    }

    /** The sig's denotation, remembered once built. */
    method DenotePrim(t: Node) returns (d: RelExpr)
      requires Memo() && BoundBelow(t)
      modifies this`sigDenote
      ensures Memo() && d == Denote(Table(), t) && old(sigDenote).Keys + {t.sig} <= sigDenote.Keys
      decreases t
    {
      if t.sig in sigDenote { return sigDenote[t.sig]; }
      if t.kids == [] {
        d := Relation(leafRel[t.sig]);
      } else {
        var parts := [];
        var k := 0;
        while k < |t.kids|
          invariant k <= |t.kids| && Memo() && old(sigDenote).Keys <= sigDenote.Keys && parts == KidDenotes(Table(), t.kids[..k])
        {
          assert t.kids[..k + 1][..k] == t.kids[..k];
          var kid := DenotePrim(t.kids[k]);
          parts := parts + [kid];
          k := k + 1;
        }
        assert t.kids[..k] == t.kids;
        assert KidDenotes(Table(), t.kids) + [] == KidDenotes(Table(), t.kids);
        if t.sig in remainderRel { parts := parts + [Relation(remainderRel[t.sig])]; }
        d := BuildUnion(parts);
      }
      assert d == Denote(Table(), t);
      sigDenote := sigDenote[t.sig := d];
    }

    method EmitDisjointness(t: Node)
      requires Memo() && BoundBelow(t)
      modifies this`sigDenote, this`constraints
      ensures Memo() && constraints == old(constraints) + PairDisjoint(KidDenotes(Table(), t.kids))
    {
      hide Memo, BoundBelow, KidDenotes, PairDisjoint, PairRow;
      ghost var group := KidDenotes(Table(), t.kids);
      ghost var start := constraints;
      var i := 0;
      while i < |t.kids|
        invariant i <= |t.kids| && Memo() && constraints + PairDisjoint(group[i..]) == start + PairDisjoint(group)
      {
        ghost var c := constraints;
        var j := i + 1;
        NoPairs(group[i..]);
        while j < |t.kids|
          invariant i < j <= |t.kids| && Memo() && constraints == c + PairRow(group[i..], j - i)
        {
          KidBound(t, i);
          KidBound(t, j);
          KidDenoteAt(Table(), t.kids, i);
          KidDenoteAt(Table(), t.kids, j);
          var a := DenotePrim(t.kids[i]);
          var b := DenotePrim(t.kids[j]);
          NextPair(group[i..], j - i);
          constraints := constraints + [MultTest(TNo, RBin(Intersect, a, b))];
          j := j + 1;
        }
        PairsByRow(group[i..]);
        assert group[i..][1..] == group[i + 1..];
        assert constraints + PairDisjoint(group[i + 1..]) == c + PairDisjoint(group[i..]);
        i := i + 1;
      }
      NothingLeft(constraints, group[i..]);
    }

    /** The size formula, when the bounds do not already give the size. */
    method EmitSize(t: Node, ghost q: Place)
      requires Ready() && Memo() && BoundBelow(t) && q in AllPlaces(forest) && q.t == t && Prepared(scope, lower, upper, q)
      modifies this`sigDenote, this`constraints, this`nextVar
      ensures Memo() && constraints == old(constraints) + SizeConstraint(Table(), q, old(nextVar)) && nextVar >= old(nextVar)
    {
      hide Ready, Memo, BoundBelow, AllPlaces, Places, Upper, Lower;
      hide FinalScope, KidsCount, Interval, Denote, AtMostWitness, ExactWitness;
      var n := scope[t.sig];
      KidsPrepared(q);
      var childLower := ChildLower(t, q);
      if t.exact && t.isAbstract && t.kids != [] && |childLower| < n {
        var d := DenotePrim(t);
        var f := MultTest(TNo, d);
        if n != 0 {
          f := BuildSizeWitnessExact(d, n, nextVar);
          nextVar := nextVar + n;
        }
        constraints := constraints + [f];
        return;
      }
      if |upper[t.sig]| <= n { return; }
      // An exact sig is pinned by its bounds, so only a capped one reaches this point.
      assert !t.exact by { PinnedSize(q); }
      var d := DenotePrim(t);
      if n == 0 {
        constraints := constraints + [MultTest(TNo, d)];
      } else if n == 1 {
        constraints := constraints + [MultTest(TLone, d)];
      } else {
        var f := BuildSizeWitness(d, n, nextVar);
        nextVar := nextVar + n;
        constraints := constraints + [Or([MultTest(TNo, d), f])];
      }
    }

    lemma PinnedSize(q: Place)
      requires Ready() && q in AllPlaces(forest)
      ensures q.t.exact ==> |Upper(q)| == FinalScope(q.t)
    {
      ForestClear(forest, q);
      BoundSizes(q);
    }

    method ChildLower(t: Node, ghost q: Place) returns (s: set<nat>)
      requires q.t == t && forall k: nat | k < |t.kids| :: HasLower(lower, Kid(q, k))
      ensures s == Interval(q.first, KidsCount(t.kids))
    {
      hide Lower, KidsCount, Interval;
      s := {};
      var i := 0;
      while i < |t.kids|
        invariant i <= |t.kids|
        invariant forall a: nat :: a in s <==> exists k: nat :: k < i && a in Lower(Kid(q, k))
      {
        assert HasLower(lower, Kid(q, i));
        s := s + lower[t.kids[i].sig];
        i := i + 1;
      }
      forall a: nat ensures a in s <==> a in Interval(q.first, KidsCount(t.kids)) { KidLowers(q, a); }
    }

    method EmitMultiplicity(t: Node, ghost q: Place)
      requires Memo() && BoundBelow(t) && q.t == t && Prepared(scope, lower, upper, q)
      modifies this`sigDenote, this`constraints
      ensures Memo() && constraints == old(constraints) + MultConstraint(Table(), q)
    {
      hide Memo, BoundBelow, Lower, Upper, Denote, FinalScope;
      var d := DenotePrim(t);
      match t.mult
      case Some(SomeMult) =>
        if lower[t.sig] == {} { constraints := constraints + [MultTest(TSome, d)]; }
      case Some(One) =>
        if !(|lower[t.sig]| == 1 && |upper[t.sig]| == 1) { constraints := constraints + [MultTest(TOne, d)]; }
      case _ =>
    }

    /** Every sig's formulas, in sig order; `vars` records where each sig's witnesses start. */
    method EmitPrimConstraints() returns (ghost vars: map<Place, VarId>)
      requires Ready() && Memo() && constraints == [] && AllBound()
      modifies this`sigDenote, this`constraints, this`nextVar
      ensures Memo() && SaysAll(constraints, forest, Table(), vars)
    {
      hide Ready, Memo, AllBound, BoundBelow, AllPlaces, Emitted, AllHold, SigConstraints, Says, SaysAll, Prepared;
      vars := map[];
      var x := 0;
      NothingSaid(forest, Table(), vars);
      while x < |nodes|
        invariant x <= |nodes| && Memo() && Says(constraints, forest, Table(), vars, x)
      {
        if nodes[x].Some? {
          ghost var q := PlaceAt(x);
          BelowPlace(q);
          ghost var c, v, vars0 := constraints, nextVar, vars;
          EmitSig(nodes[x].value, q);
          vars := vars[q := v];
          SaysMore(c, constraints, forest, Table(), vars0, vars, x, q, v);
        } else {
          NotIndexed(x);
          SaysSkip(constraints, forest, Table(), vars, x);
        }
        x := x + 1;
      }
      forall q | q in AllPlaces(forest) ensures q.t.sig < |nodes| { InIndex(q); }
      AllSaid(constraints, forest, Table(), vars, x);
    }

    method EmitSig(t: Node, ghost q: Place)
      requires Ready() && Memo() && BoundBelow(t) && q in AllPlaces(forest) && q.t == t && Prepared(scope, lower, upper, q)
      modifies this`sigDenote, this`constraints, this`nextVar
      ensures Memo() && constraints == old(constraints) + SigConstraints(Table(), q, old(nextVar)) && nextVar >= old(nextVar)
    {
      hide Ready, Memo, BoundBelow, AllPlaces, SigConstraints, Prepared;
      ghost var c, v := constraints, nextVar;
      EmitDisjointness(t);
      EmitSize(t, q);
      EmitMultiplicity(t, q);
      InThree(c, Table(), q, v, constraints);
    }

    lemma NotIndexed(x: nat)
      requires Ready() && x < |nodes| && nodes[x].None?
      ensures forall q | q in AllPlaces(forest) :: q.t.sig != x
    {
      forall q | q in AllPlaces(forest) ensures q.t.sig != x { InIndex(q); }
    }

    /** Allocates, denotes and constrains the whole hierarchy. Every instance inside the bounds satisfies the
        constraints exactly when each sig lies between its bounds, keeps its scope, has disjoint children and
        its multiplicity. */
    method Build()
      requires Ready() && Fresh() && Memo() && constraints == [] && leafRel == map[] && remainderRel == map[] && sigDenote == map[]
      modifies this
      ensures Fresh() && Memo()
      ensures forall q | q in AllPlaces(forest) :: BoundAt(Table(), bounds, q)
      ensures forall i, env | InsideTable(i, bounds) ::
                AllHold(i, env, constraints) <==> forall q | q in AllPlaces(forest) :: ScopeKept(i, Table(), q)
    {
      hide Ready, AllPlaces, BoundAt, AllHold, ScopeKept, SaysAll, InsideTable, AllBound, BoundBelow;
      AllocPrimRelations();
      EveryNodeBound();
      BuildPrimDenotations();
      var vars := EmitPrimConstraints();
      var r, b, cs := Table(), bounds, constraints;
      forall i, env | InsideTable(i, b)
        ensures AllHold(i, env, cs) <==> forall q | q in AllPlaces(forest) :: ScopeKept(i, r, q)
      {
        TableEnforces(i, env, cs, forest, r, b, vars, nextRel);
      }
    }

    method BuildPrimDenotations()
      requires Ready() && Memo() && AllBound()
      modifies this`sigDenote
      ensures Memo() && forall q | q in AllPlaces(forest) :: q.t.sig in sigDenote
    {
      hide Ready, Memo, AllBound, BoundBelow, AllPlaces, Prepared;
      var x := 0;
      while x < |nodes|
        invariant x <= |nodes| && Memo() && forall k: nat | k < x && nodes[k].Some? :: k in sigDenote
      {
        if nodes[x].Some? {
          ghost var q := PlaceAt(x);
          BelowPlace(q);
          ghost var known := sigDenote.Keys;
          var _ := DenotePrim(nodes[x].value);
          assert forall k: nat | k in known :: k in sigDenote;
        }
        x := x + 1;
      }
      forall q | q in AllPlaces(forest) ensures q.t.sig in sigDenote { InIndex(q); }
    }

    lemma EveryNodeBound()
      requires Ready() && forall q | q in AllPlaces(forest) :: BoundAt(Table(), bounds, q)
      ensures AllBound()
    {
      hide Ready, AllPlaces, BoundAt;
      forall q | q in AllPlaces(forest) ensures BoundBelow(q.t) { NodeBound(q); }
    }

    lemma {:induction false} NodeBound(q: Place)
      requires Ready() && q in AllPlaces(forest) && forall q | q in AllPlaces(forest) :: BoundAt(Table(), bounds, q)
      ensures BoundBelow(q.t)
      decreases q.t
    {
      hide Ready, AllPlaces, OwnBound;
      InIndex(q);
      assert BoundAt(Table(), bounds, q);
      forall k: nat | k < |q.t.kids| ensures BoundBelow(q.t.kids[k]) {
        KidInForest(forest, q, k);
        NodeBound(Kid(q, k));
      }
    }

    /** Every node below is indexed and has its relation. */
    ghost predicate BoundBelow(t: Node)
      reads this`leafRel, this`remainderRel
    {
      && t.sig < |nodes| && nodes[t.sig] == Some(t)
      && (t.kids == [] ==> t.sig in leafRel)
      && (t.kids != [] ==> (t.sig in remainderRel <==> HasRemainder(t)))
      && forall k: nat | k < |t.kids| :: BoundBelow(t.kids[k])
    }

    ghost predicate AllBound()
      reads this`leafRel, this`remainderRel
    {
      forall q | q in AllPlaces(forest) :: BoundBelow(q.t)
    }

    lemma BelowPlace(q: Place)
      requires AllBound() && q in AllPlaces(forest)
      ensures BoundBelow(q.t)
    {
    }

    lemma KidBound(t: Node, k: nat)
      requires BoundBelow(t) && k < |t.kids|
      ensures BoundBelow(t.kids[k])
    {
    }
  }

  // ------------------------------------------------------------------ what the formulas emitted so far say

  /** The formulas hold exactly when those of every sig before `x` do. */
  ghost predicate Says(cs: seq<Formula>, forest: seq<Node>, r: Rels, vars: map<Place, VarId>, x: nat) {
    && (forall q | q in AllPlaces(forest) && q.t.sig < x :: q in vars)
    && (forall i, env :: AllHold(i, env, cs) <==>
                         forall q | q in AllPlaces(forest) && q.t.sig < x :: Emitted(i, env, r, q, vars[q]))
  }

  lemma NothingSaid(forest: seq<Node>, r: Rels, vars: map<Place, VarId>)
    ensures Says([], forest, r, vars, 0)
  {
  }

  lemma SaysSkip(cs: seq<Formula>, forest: seq<Node>, r: Rels, vars: map<Place, VarId>, x: nat)
    requires Says(cs, forest, r, vars, x) && forall q | q in AllPlaces(forest) :: q.t.sig != x
    ensures Says(cs, forest, r, vars, x + 1)
  {
    hide AllHold, Emitted, AllPlaces;
    forall i, env
      ensures AllHold(i, env, cs) <==> forall q | q in AllPlaces(forest) && q.t.sig < x + 1 :: Emitted(i, env, r, q, vars[q])
    {
      assert forall q | q in AllPlaces(forest) :: q.t.sig < x + 1 <==> q.t.sig < x;
    }
  }

  lemma SaysMore(c: seq<Formula>, cs: seq<Formula>, forest: seq<Node>, r: Rels, vars: map<Place, VarId>, vars': map<Place, VarId>,
                 x: nat, p: Place, v: VarId)
    requires Says(c, forest, r, vars, x) && cs == c + SigConstraints(r, p, v) && vars' == vars[p := v]
    requires p in AllPlaces(forest) && p.t.sig == x && forall q | q in AllPlaces(forest) && q.t.sig == x :: q == p
    ensures Says(cs, forest, r, vars', x + 1)
  {
    hide AllHold, AllPlaces, SigConstraints;
    forall i, env
      ensures AllHold(i, env, cs) <==> forall q | q in AllPlaces(forest) && q.t.sig < x + 1 :: Emitted(i, env, r, q, vars'[q])
    {
      AllHoldJoin(i, env, c, SigConstraints(r, p, v));
      assert Emitted(i, env, r, p, vars'[p]) <==> AllHold(i, env, SigConstraints(r, p, v));
      forall q | q in AllPlaces(forest) && q.t.sig < x ensures vars'[q] == vars[q] { }
    }
  }

  /** The formulas hold exactly when every sig's own do. */
  ghost predicate SaysAll(cs: seq<Formula>, forest: seq<Node>, r: Rels, vars: map<Place, VarId>) {
    && AllPlaces(forest) <= vars.Keys
    && (forall i, env :: AllHold(i, env, cs) <==> forall q | q in AllPlaces(forest) :: Emitted(i, env, r, q, vars[q]))
  }

  lemma AllSaid(cs: seq<Formula>, forest: seq<Node>, r: Rels, vars: map<Place, VarId>, x: nat)
    requires Says(cs, forest, r, vars, x) && forall q | q in AllPlaces(forest) :: q.t.sig < x
    ensures SaysAll(cs, forest, r, vars)
  {
    hide AllHold, Emitted, AllPlaces;
    forall i, env
      ensures AllHold(i, env, cs) <==> forall q | q in AllPlaces(forest) :: Emitted(i, env, r, q, vars[q])
    {
      assert AllHold(i, env, cs) <==> forall q | q in AllPlaces(forest) && q.t.sig < x :: Emitted(i, env, r, q, vars[q]);
    }
  }

  lemma TableEnforces(i: Inst, env: Env, cs: seq<Formula>, forest: seq<Node>, r: Rels, bounds: map<RelId, RelBound>,
                      vars: map<Place, VarId>, nr: nat)
    requires SaysAll(cs, forest, r, vars) && RelsBelow(r, nr) && InsideTable(i, bounds)
    requires forall q | q in AllPlaces(forest) :: BoundAt(r, bounds, q)
    ensures AllHold(i, env, cs) <==> forall q | q in AllPlaces(forest) :: ScopeKept(i, r, q)
  {
    hide AllHold, Emitted, AllPlaces, ScopeKept, BoundAt, InsideTable, PlaceInside, RelsBelow;
    forall q | q in AllPlaces(forest) ensures PlaceInside(i, r, q) { InsidePlace(i, r, bounds, q); }
    ForestEnforced(i, env, r, forest, vars, nr);
  }

  lemma InThree(c: seq<Formula>, r: Rels, q: Place, v: VarId, cs: seq<Formula>)
    requires cs == c + PairDisjoint(KidDenotes(r, q.t.kids)) + SizeConstraint(r, q, v) + MultConstraint(r, q)
    ensures cs == c + SigConstraints(r, q, v)
  {
    hide PairDisjoint, KidDenotes, SizeConstraint, MultConstraint;
  }

  lemma NoPairs(group: seq<RelExpr>)
    requires group != []
    ensures PairRow(group, 1) == []
  {
  }

  lemma NextPair(group: seq<RelExpr>, upto: nat)
    requires 1 <= upto < |group|
    ensures PairRow(group, upto + 1) == PairRow(group, upto) + [MultTest(TNo, RBin(Intersect, group[0], group[upto]))]
  {
  }

  lemma NothingLeft(cs: seq<Formula>, group: seq<RelExpr>)
    requires group == []
    ensures cs + PairDisjoint(group) == cs
  {
  }

  lemma ForestClear(forest: seq<Node>, q: Place)
    requires q in AllPlaces(forest)
    ensures Clear(q)
  {
    var k: nat :| k < |forest| && q in Tree(forest, k);
    PlacesClear(Root(forest, k), q);
  }

  /** One more sig allocated: earlier relations and bounds stand. */
  ghost predicate AllocatedOne(r: Rels, b: map<RelId, RelBound>, r': Rels, b': map<RelId, RelBound>, x: nat) {
    && (forall s: nat | s != x :: (s in r'.leaf <==> s in r.leaf) && (s in r.leaf ==> r'.leaf[s] == r.leaf[s]))
    && (forall s: nat | s != x :: (s in r'.remainder <==> s in r.remainder) && (s in r.remainder ==> r'.remainder[s] == r.remainder[s]))
    && (forall k | k in b :: k in b' && b'[k] == b[k])
  }

  lemma BoundKept(r: Rels, b: map<RelId, RelBound>, r': Rels, b': map<RelId, RelBound>, q: Place, x: nat, nr: nat)
    requires BoundAt(r, b, q) && AllocatedOne(r, b, r', b', x) && q.t.sig != x
    ensures BoundAt(r', b', q)
  {
    hide OwnBound;
  }

  lemma KidInForest(forest: seq<Node>, q: Place, k: nat)
    requires q in AllPlaces(forest) && k < |q.t.kids|
    ensures Kid(q, k) in AllPlaces(forest)
  {
    var j: nat :| j < |forest| && q in Tree(forest, j);
    KidBelow(Root(forest, j), q, k);
    assert Kid(q, k) in Tree(forest, j);
  }

  lemma {:induction false} KidBelow(p: Place, q: Place, k: nat)
    requires q in Places(p) && k < |q.t.kids|
    ensures Kid(q, k) in Places(p)
    decreases p.t
  {
    if q == p {
      InOwnPlaces(Kid(p, k));
      assert Kid(p, k) in Below(p, k);
    } else {
      var j := PlaceBelow(p, q);
      KidBelow(Kid(p, j), q, k);
      assert Kid(q, k) in Below(p, j);
    }
  }
}
