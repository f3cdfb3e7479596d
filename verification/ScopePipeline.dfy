/** From a command's scopes to bounds and constraints (crates/als-core/src/scope.rs,
    crates/als-core/src/bounds_builder.rs): the scope contract across both phases. */
module ScopePipeline {
  import opened Wrappers
  import opened Scopes
  import opened ScopeSolving
  import opened SigForest
  import opened Hierarchy
  import opened UniverseMint
  import opened Ir
  import opened Folder
  import opened Plain
  import opened LoweringMeaning
  import opened SigBounds
  import opened BoundsBuilding
  import opened HierarchyEmission
  import Arithmetic

  datatype Outcome =
    | ScopeFailure(error: ScopeError)
    | BitwidthTooLarge
    | Translated(universe: Universe, scope: Table, exact: seq<bool>, rels: Rels,
                 bounds: map<RelId, RelBound>, constraints: seq<Formula>)

  /** Every scopable sig, at its place, between its bounds and within its final scope. */
  ghost predicate CommandKept(i: Inst, w: World, o: Outcome, forest: seq<Node>)
    requires o.Translated? && |o.scope| == |o.exact| == |w|
  {
    && (forall q | q in AllPlaces(forest) :: ScopeKept(i, o.rels, q))
    && forall s: nat | IsScopable(w, s) :: exists q :: SigAt(forest, w, o.scope, o.exact, q, s)
  }

  ghost predicate SigAt(forest: seq<Node>, w: World, scope: Table, exact: seq<bool>, q: Place, s: nat)
    requires |scope| == |exact| == |w|
  {
    q in AllPlaces(forest) && q.t.sig == s < |w| && scope[s] == Some(q.t.scope) && exact[s] == q.t.exact && w[s].mult == q.t.mult
  }

  lemma EverySigAt(w: World, rank: seq<nat>, top: nat, scope: Table, exact: seq<bool>, order: seq<nat>, s: nat)
    requires Scoped(w, rank, top, scope, exact) && TopOrder(w, order) && IsScopable(w, s) && scope[s].Some?
    ensures forall k: nat | k < |order| :: IsScopable(w, order[k])
    ensures exists q :: SigAt(TreesOf(w, rank, top, scope, exact, order), w, scope, exact, q, s)
  {
    hide TreeOf, AllPlaces, Sigs, KidSigs;
    ForestCovers(w, rank, top, scope, exact, order);
    var forest := TreesOf(w, rank, top, scope, exact, order);
    var q := ForestSigPlaced(forest, s);
    ForestTrue(w, rank, top, scope, exact, order, q);
    NodeSig(w, rank, top, scope, exact, s);
    assert SigAt(forest, w, scope, exact, q, s);
  }

  /** The index of the sigs' trees. */
  function IndexOf(w: World, ghost rank: seq<nat>, ghost top: nat, scope: Table, exact: seq<bool>): (nodes: seq<Option<Node>>)
    requires Scoped(w, rank, top, scope, exact)
  {
    seq(|w|, x requires 0 <= x < |w| => if IsScopable(w, x) then Some(TreeOf(w, rank, top, scope, exact, x)) else None)
  }

  lemma IndexFits(w: World, rank: seq<nat>, top: nat, scope: Table, exact: seq<bool>, order: seq<nat>)
    requires Scoped(w, rank, top, scope, exact) && TopOrder(w, order)
    ensures forall k: nat | k < |order| :: IsScopable(w, order[k])
    ensures Indexed(TreesOf(w, rank, top, scope, exact, order), IndexOf(w, rank, top, scope, exact))
  {
    hide TreeOf, AllPlaces, Sigs, KidSigs;
    ForestCovers(w, rank, top, scope, exact, order);
    var forest, nodes := TreesOf(w, rank, top, scope, exact, order), IndexOf(w, rank, top, scope, exact);
    forall q | q in AllPlaces(forest) ensures q.t.sig < |nodes| && nodes[q.t.sig] == Some(q.t) {
      ForestTrue(w, rank, top, scope, exact, order, q);
    }
    forall x: nat | x < |nodes| && nodes[x].Some? ensures Stands(forest, x) {
      var q := ForestSigPlaced(forest, x);
    }
  }

  /** The scopes as the walk finds them. */
  function ScopeMap(w: World, scope: Table): (m: map<nat, nat>)
    requires |scope| == |w|
  {
    map x: nat | x < |w| && scope[x].Some? :: scope[x].value
  }

  lemma WalkReady(w: World, rank: seq<nat>, top: nat, scope: Table, exact: seq<bool>, order: seq<nat>)
    requires Scoped(w, rank, top, scope, exact) && TopOrder(w, order) && forall s: nat | IsScopable(w, s) :: scope[s].Some?
    ensures forall k: nat | k < |order| :: IsScopable(w, order[k])
    ensures RootsPending(ScopeMap(w, scope), map[], TreesOf(w, rank, top, scope, exact, order), 0)
    ensures forall x | x in KidSigs(TreesOf(w, rank, top, scope, exact, order)) :: x < |w|
  {
    hide TreeOf, Places, KidSigs;
    ForestCovers(w, rank, top, scope, exact, order);
    var forest := TreesOf(w, rank, top, scope, exact, order);
    forall k: nat, q | k < |forest| && q in Places(Root(forest, k))
      ensures q.t.sig in ScopeMap(w, scope) && ScopeMap(w, scope)[q.t.sig] == q.t.scope
    {
      assert q in Tree(forest, k);
      ForestTrue(w, rank, top, scope, exact, order, q);
      NodeSig(w, rank, top, scope, exact, q.t.sig);
    }
  }

  /** Scopes a command, mints its universe and bounds its sigs. In the result, an instance inside the bounds
      satisfies the constraints exactly when it keeps the command's scopes. */
  method TranslateScopes(w: World, c: Command, order: seq<nat>, labels: seq<string>, bitwidth: nat, referenced: seq<string>,
                         ghost rank: seq<nat>, ghost top: nat)
      returns (o: Outcome, ghost forest: seq<Node>)
    requires GoodWorld(w, rank) && GoodCommand(w, c) && TopOrder(w, order) && forall j: nat | j < |w| :: rank[j] <= top
    requires |labels| == |w| && NoRepeats(referenced) && forall l | l in labels :: Bare(l)
    ensures o.BitwidthTooLarge? ==> bitwidth > Arithmetic.MAX_BITWIDTH
    ensures o.ScopeFailure? ==> || (exists err :: Raises(w, c, err))
                                || (exists s :: Forces(w, c, s) && Strands(w, EffectiveOverall(c), s))
    ensures o.Translated? ==>
              && ScopeContract(w, c, o.scope, o.exact)
              && NoRepeats(o.universe.atoms)
              && UniverseLayout(o.universe, TopCount(forest), bitwidth, referenced, c.maxString)
              && forall i, env | InsideTable(i, o.bounds) :: AllHold(i, env, o.constraints) <==> CommandKept(i, w, o, forest)
  {
    hide ScopeContract, Scoped, GoodWorld, GoodCommand, TopOrder, AllPlaces, KidSigs, RootsPending, ScopeMap, TreeOf, TreesOf, IndexOf, Recorded, Minting, NoRepeats, UniverseLayout;
    hide AllHold, Bare, InsideTable, Prepared, HasLower, HasUpper, Indexed, AllDistinct, TopCount, ScopeKept, SigAt, Raises, Forces, Strands, EffectiveOverall, BoundAt;
    forest := [];
    WorldRanked(w, rank);
    var solver := new ScopeSolver(w, c);
    var err := solver.Compute(rank);
    if err.Some? { return ScopeFailure(err.value), []; }
    var scope, exact := solver.scope, solver.exact;
    ContractParts(w, c, rank, top, scope, exact);
    ForestCovers(w, rank, top, scope, exact, order);
    var trees := TreesOf(w, rank, top, scope, exact, order);
    var nodes := IndexOf(w, rank, top, scope, exact);
    IndexFits(w, rank, top, scope, exact, order);
    WalkReady(w, rank, top, scope, exact, order);
    var minting := new UniverseBuilder(labels, ScopeMap(w, scope));
    var u := minting.Finish(trees, bitwidth, referenced, c.maxString);
    if u.None? { return BitwidthTooLarge, []; }
    var table, runs := minting.scope, minting.minted;
    forall q | q in AllPlaces(trees) ensures Minting(table, runs, q) { RecordedMinting(table, runs, u.value.atoms, q); }
    var builder := new BoundsBuilder(nodes, table, runs);
    builder.ComputeAtomBounds(trees);
    forall q | q in AllPlaces(trees) ensures Prepared(table, builder.lower, builder.upper, q) {
      PreparedFrom(table, runs, builder.lower, builder.upper, q);
    }
    var emitter := new HierarchyEmitter(trees, nodes, table, builder.lower, builder.upper, map[], 0, 0);
    emitter.Build();
    o := Translated(u.value, scope, exact, Rels(emitter.leafRel, emitter.remainderRel), emitter.bounds, emitter.constraints);
    forest := trees;
    forall s: nat | IsScopable(w, s) ensures exists q :: SigAt(trees, w, scope, exact, q, s) {
      EverySigAt(w, rank, top, scope, exact, order, s);
    }
  }

  lemma WorldRanked(w: World, rank: seq<nat>)
    requires GoodWorld(w, rank)
    ensures exists r :: GoodWorld(w, r)
  {
  }

  lemma ContractParts(w: World, c: Command, rank: seq<nat>, top: nat, scope: Table, exact: seq<bool>)
    requires GoodCommand(w, c) && ScopeContract(w, c, scope, exact)
    requires GoodWorld(w, rank) && forall j: nat | j < |w| :: rank[j] <= top
    ensures |scope| == |exact| == |w| && Scoped(w, rank, top, scope, exact)
    ensures forall s: nat | IsScopable(w, s) :: scope[s].Some?
  {
  }

  lemma PreparedFrom(scope: map<nat, nat>, minted: map<nat, Minted>, lower: AtomSets, upper: AtomSets, q: Place)
    requires Minting(scope, minted, q) && HasLower(lower, q) && HasUpper(upper, q)
    ensures Prepared(scope, lower, upper, q)
  {
  }
}
