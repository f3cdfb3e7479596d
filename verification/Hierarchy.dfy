/** The forest of a resolved world: one tree per top-level sig, every scopable sig at exactly one place
    (crates/als-core/src/scope.rs). */
module Hierarchy {
  import opened Scopes
  import opened SigForest

  /** A good world whose ranks are at most `top`, with a table entry and an exactness flag for every sig. */
  ghost predicate Scoped(w: World, rank: seq<nat>, top: nat, scope: Table, exact: seq<bool>) {
    GoodWorld(w, rank) && |scope| == |exact| == |w| && forall j: nat | j < |w| :: rank[j] <= top
  }

  function TreeOf(w: World, ghost rank: seq<nat>, ghost top: nat, scope: Table, exact: seq<bool>, i: nat): Node
    requires Scoped(w, rank, top, scope, exact) && IsScopable(w, i)
    decreases top - rank[i], |w| + 1
  {
    Node(i, if scope[i].Some? then scope[i].value else 0, exact[i], w[i].isAbstract, w[i].mult,
         KidTrees(w, rank, top, scope, exact, i, |w|))
  }

  /** The trees of a sig's children among the first `upto` sigs. */
  function KidTrees(w: World, ghost rank: seq<nat>, ghost top: nat, scope: Table, exact: seq<bool>, i: nat, upto: nat): seq<Node>
    requires Scoped(w, rank, top, scope, exact) && IsScopable(w, i) && upto <= |w|
    decreases top - rank[i], upto
  {
    if upto == 0 then []
    else
      KidTrees(w, rank, top, scope, exact, i, upto - 1)
      + if IsChild(w, i, upto - 1) then [TreeOf(w, rank, top, scope, exact, upto - 1)] else []
  }

  function TreesOf(w: World, ghost rank: seq<nat>, ghost top: nat, scope: Table, exact: seq<bool>, order: seq<nat>): seq<Node>
    requires Scoped(w, rank, top, scope, exact) && forall k: nat | k < |order| :: IsScopable(w, order[k])
  {
    seq(|order|, k requires 0 <= k < |order| => TreeOf(w, rank, top, scope, exact, order[k]))
  }

  /** The walk's order: every top-level sig once. */
  ghost predicate TopOrder(w: World, order: seq<nat>) {
    && (forall i: nat :: i in order <==> IsTopLevel(w, i))
    && forall j, k | 0 <= j < k < |order| :: order[j] != order[k]
  }

  // ------------------------------------------------------------------ ancestry

  /** `j` is `a` or extends it, directly or not. */
  ghost predicate IsUnder(w: World, rank: seq<nat>, a: nat, j: nat)
    requires GoodWorld(w, rank)
    decreases if j < |w| then rank[j] else 0
  {
    && IsScopable(w, a) && IsScopable(w, j)
    && (j == a || (w[j].kind.parent.Some? && IsUnder(w, rank, a, w[j].kind.parent.value)))
  }

  lemma {:induction false} UnderRank(w: World, rank: seq<nat>, a: nat, j: nat)
    requires GoodWorld(w, rank) && IsUnder(w, rank, a, j)
    ensures rank[a] <= rank[j] && (rank[a] == rank[j] ==> a == j)
    decreases rank[j]
  {
    if j != a { UnderRank(w, rank, a, w[j].kind.parent.value); }
  }

  lemma {:induction false} UnderChild(w: World, rank: seq<nat>, a: nat, j: nat)
    requires GoodWorld(w, rank) && IsUnder(w, rank, a, j) && j != a
    ensures exists c: nat :: IsChild(w, a, c) && IsUnder(w, rank, c, j)
    decreases rank[j]
  {
    var p := w[j].kind.parent.value;
    if p == a {
      assert IsChild(w, a, j) && IsUnder(w, rank, j, j);
    } else {
      UnderChild(w, rank, a, p);
      var c: nat :| IsChild(w, a, c) && IsUnder(w, rank, c, p);
      assert IsUnder(w, rank, c, j);
    }
  }

  lemma {:induction false} ChildIsUnder(w: World, rank: seq<nat>, a: nat, c: nat, j: nat)
    requires GoodWorld(w, rank) && IsScopable(w, a) && IsChild(w, a, c) && IsUnder(w, rank, c, j)
    ensures IsUnder(w, rank, a, j) && j != a
    decreases rank[j]
  {
    UnderRank(w, rank, c, j);
    if j != c { ChildIsUnder(w, rank, a, c, w[j].kind.parent.value); }
  }

  /** Ancestors of one sig form a chain, so it is under one child of a sig and under one top-level sig. */
  lemma {:induction false} OneAncestor(w: World, rank: seq<nat>, c: nat, c': nat, j: nat)
    requires GoodWorld(w, rank) && IsUnder(w, rank, c, j) && IsUnder(w, rank, c', j)
    requires IsScopable(w, c) && IsScopable(w, c') && w[c].kind.parent == w[c'].kind.parent
    ensures c == c'
    decreases rank[j]
  {
    if j == c && c != c' {
      UnderRank(w, rank, c', w[c].kind.parent.value);
    } else if j == c' && c != c' {
      UnderRank(w, rank, c, w[c'].kind.parent.value);
    } else if j != c {
      OneAncestor(w, rank, c, c', w[j].kind.parent.value);
    }
  }

  lemma {:induction false} HasRoot(w: World, rank: seq<nat>, j: nat)
    requires GoodWorld(w, rank) && IsScopable(w, j)
    ensures exists r: nat :: IsTopLevel(w, r) && IsUnder(w, rank, r, j)
    decreases rank[j]
  {
    if w[j].kind.parent.None? {
      assert IsTopLevel(w, j) && IsUnder(w, rank, j, j);
    } else {
      HasRoot(w, rank, w[j].kind.parent.value);
      var r: nat :| IsTopLevel(w, r) && IsUnder(w, rank, r, w[j].kind.parent.value);
      assert IsUnder(w, rank, r, j);
    }
  }

  // ------------------------------------------------------------------ the sigs of each tree

  lemma {:induction false} TreeSigs(w: World, rank: seq<nat>, top: nat, scope: Table, exact: seq<bool>, i: nat)
    requires Scoped(w, rank, top, scope, exact) && IsScopable(w, i)
    ensures forall j: nat :: j in Sigs(TreeOf(w, rank, top, scope, exact, i)) <==> IsUnder(w, rank, i, j)
    ensures Distinct(TreeOf(w, rank, top, scope, exact, i))
    decreases top - rank[i], |w| + 1
  {
    KidTreeSigs(w, rank, top, scope, exact, i, |w|);
    forall j: nat
      ensures j in Sigs(TreeOf(w, rank, top, scope, exact, i)) <==> IsUnder(w, rank, i, j)
    {
      if IsUnder(w, rank, i, j) && j != i {
        UnderChild(w, rank, i, j);
      }
      if UnderKid(w, rank, i, |w|, j) {
        var c: nat :| IsChild(w, i, c) && IsUnder(w, rank, c, j);
        ChildIsUnder(w, rank, i, c, j);
      }
    }
    if UnderKid(w, rank, i, |w|, i) {
      var c: nat :| IsChild(w, i, c) && IsUnder(w, rank, c, i);
      UnderRank(w, rank, c, i);
    }
  }

  ghost predicate UnderKid(w: World, rank: seq<nat>, i: nat, upto: nat, j: nat)
    requires GoodWorld(w, rank)
  {
    exists c: nat :: c < upto && IsChild(w, i, c) && IsUnder(w, rank, c, j)
  }

  lemma UnderNextKid(w: World, rank: seq<nat>, i: nat, upto: nat, j: nat)
    requires GoodWorld(w, rank) && 0 < upto <= |w|
    ensures UnderKid(w, rank, i, upto, j) <==>
            UnderKid(w, rank, i, upto - 1, j) || (IsChild(w, i, upto - 1) && IsUnder(w, rank, upto - 1, j))
  {
    hide IsUnder, GoodWorld;
  }

  /** No sig is under two children. */
  lemma UnderOneKid(w: World, rank: seq<nat>, i: nat, c: nat, j: nat)
    requires GoodWorld(w, rank) && IsChild(w, i, c) && IsUnder(w, rank, c, j)
    ensures !UnderKid(w, rank, i, c, j)
  {
    if UnderKid(w, rank, i, c, j) {
      var c': nat :| c' < c && IsChild(w, i, c') && IsUnder(w, rank, c', j);
      OneAncestor(w, rank, c, c', j);
    }
  }

  lemma {:induction false} KidTreeSigs(w: World, rank: seq<nat>, top: nat, scope: Table, exact: seq<bool>, i: nat, upto: nat)
    requires Scoped(w, rank, top, scope, exact) && IsScopable(w, i) && upto <= |w|
    ensures forall j: nat :: j in KidSigs(KidTrees(w, rank, top, scope, exact, i, upto)) <==> UnderKid(w, rank, i, upto, j)
    ensures AllDistinct(KidTrees(w, rank, top, scope, exact, i, upto))
    decreases top - rank[i], upto
  {
    hide IsUnder, UnderKid;
    if upto == 0 {
      forall j: nat ensures !UnderKid(w, rank, i, 0, j) { NoKid(w, rank, i, j); }
    } else {
      var front := KidTrees(w, rank, top, scope, exact, i, upto - 1);
      KidTreeSigs(w, rank, top, scope, exact, i, upto - 1);
      forall j: nat { UnderNextKid(w, rank, i, upto, j); }
      if IsChild(w, i, upto - 1) {
        var t := TreeOf(w, rank, top, scope, exact, upto - 1);
        TreeSigs(w, rank, top, scope, exact, upto - 1);
        forall j | j in Sigs(t) ensures j !in KidSigs(front) { UnderOneKid(w, rank, i, upto - 1, j); }
        OneMore(front, t);
      } else {
        assert KidTrees(w, rank, top, scope, exact, i, upto) == front;
      }
    }
  }

  lemma NoKid(w: World, rank: seq<nat>, i: nat, j: nat)
    requires GoodWorld(w, rank)
    ensures !UnderKid(w, rank, i, 0, j)
  {
  }

  lemma OneMore(front: seq<Node>, t: Node)
    ensures KidSigs(front + [t]) == KidSigs(front) + Sigs(t)
    ensures AllDistinct(front + [t]) <==> AllDistinct(front) && Distinct(t) && KidSigs(front) !! Sigs(t)
  {
    assert (front + [t])[..|front|] == front;
  }

  ghost predicate UnderSome(w: World, rank: seq<nat>, order: seq<nat>, j: nat)
    requires GoodWorld(w, rank)
  {
    exists k: nat :: k < |order| && IsUnder(w, rank, order[k], j)
  }

  lemma UnderLast(w: World, rank: seq<nat>, order: seq<nat>, j: nat)
    requires GoodWorld(w, rank) && order != []
    ensures UnderSome(w, rank, order, j) <==>
            UnderSome(w, rank, order[..|order| - 1], j) || IsUnder(w, rank, order[|order| - 1], j)
  {
    hide IsUnder, GoodWorld;
    var n := |order| - 1;
    if k: nat :| k < n && IsUnder(w, rank, order[..n][k], j) { assert IsUnder(w, rank, order[k], j); }
    if k: nat :| k < n && IsUnder(w, rank, order[k], j) { assert IsUnder(w, rank, order[..n][k], j); }
  }

  ghost predicate TopLevels(w: World, order: seq<nat>) {
    && (forall k: nat | k < |order| :: IsScopable(w, order[k]) && w[order[k]].kind.parent.None?)
    && forall j, k | 0 <= j < k < |order| :: order[j] != order[k]
  }

  lemma UnderOneTop(w: World, rank: seq<nat>, order: seq<nat>, j: nat)
    requires GoodWorld(w, rank) && TopLevels(w, order) && order != [] && IsUnder(w, rank, order[|order| - 1], j)
    ensures !UnderSome(w, rank, order[..|order| - 1], j)
  {
    var n := |order| - 1;
    if k: nat :| k < n && IsUnder(w, rank, order[..n][k], j) { OneAncestor(w, rank, order[k], order[n], j); }
  }

  lemma {:induction false} TreesSigs(w: World, rank: seq<nat>, top: nat, scope: Table, exact: seq<bool>, order: seq<nat>)
    requires Scoped(w, rank, top, scope, exact) && TopLevels(w, order)
    ensures forall j: nat :: j in KidSigs(TreesOf(w, rank, top, scope, exact, order)) <==> UnderSome(w, rank, order, j)
    ensures AllDistinct(TreesOf(w, rank, top, scope, exact, order))
    decreases |order|
  {
    hide IsUnder, UnderSome;
    if order == [] {
      forall j: nat ensures !UnderSome(w, rank, order, j) { NoTop(w, rank, j); }
    } else {
      var n := |order| - 1;
      var front, r := order[..n], order[n];
      var t := TreeOf(w, rank, top, scope, exact, r);
      TreesSigs(w, rank, top, scope, exact, front);
      TreeSigs(w, rank, top, scope, exact, r);
      assert TreesOf(w, rank, top, scope, exact, order) == TreesOf(w, rank, top, scope, exact, front) + [t];
      forall j | j in Sigs(t) ensures j !in KidSigs(TreesOf(w, rank, top, scope, exact, front)) {
        UnderOneTop(w, rank, order, j);
      }
      OneMore(TreesOf(w, rank, top, scope, exact, front), t);
      forall j: nat { UnderLast(w, rank, order, j); }
    }
  }

  lemma NoTop(w: World, rank: seq<nat>, j: nat)
    requires GoodWorld(w, rank)
    ensures !UnderSome(w, rank, [], j)
  {
  }

  /** The forest holds exactly the scopable sigs, each at one place. */
  lemma ForestCovers(w: World, rank: seq<nat>, top: nat, scope: Table, exact: seq<bool>, order: seq<nat>)
    requires Scoped(w, rank, top, scope, exact) && TopOrder(w, order)
    ensures forall k: nat | k < |order| :: IsScopable(w, order[k])
    ensures var forest := TreesOf(w, rank, top, scope, exact, order);
      AllDistinct(forest) && forall j: nat :: j in KidSigs(forest) <==> IsScopable(w, j)
  {
    forall k: nat | k < |order| ensures IsTopLevel(w, order[k]) { assert order[k] in order; }
    assert TopLevels(w, order);
    TreesSigs(w, rank, top, scope, exact, order);
    forall j: nat | IsScopable(w, j) ensures UnderSome(w, rank, order, j) {
      HasRoot(w, rank, j);
      var r: nat :| IsTopLevel(w, r) && IsUnder(w, rank, r, j);
      assert r in order;
    }
  }

  /** Every node of a tree is its own sig's tree. */
  ghost predicate TrueNode(w: World, rank: seq<nat>, top: nat, scope: Table, exact: seq<bool>, t: Node)
    requires Scoped(w, rank, top, scope, exact)
  {
    IsScopable(w, t.sig) && t == TreeOf(w, rank, top, scope, exact, t.sig)
  }

  lemma {:induction false} KidTreeNodes(w: World, rank: seq<nat>, top: nat, scope: Table, exact: seq<bool>, i: nat, upto: nat)
    requires Scoped(w, rank, top, scope, exact) && IsScopable(w, i) && upto <= |w|
    ensures forall k: nat | k < |KidTrees(w, rank, top, scope, exact, i, upto)| ::
              TrueNode(w, rank, top, scope, exact, KidTrees(w, rank, top, scope, exact, i, upto)[k])
    decreases upto
  {
    if upto > 0 { KidTreeNodes(w, rank, top, scope, exact, i, upto - 1); }
  }

  lemma {:induction false} PlacesTrue(w: World, rank: seq<nat>, top: nat, scope: Table, exact: seq<bool>, p: Place, q: Place)
    requires Scoped(w, rank, top, scope, exact) && TrueNode(w, rank, top, scope, exact, p.t) && q in Places(p)
    ensures TrueNode(w, rank, top, scope, exact, q.t)
    decreases p.t
  {
    if q != p {
      var k := PlaceBelow(p, q);
      KidTreeNodes(w, rank, top, scope, exact, p.t.sig, |w|);
      assert p.t.kids == KidTrees(w, rank, top, scope, exact, p.t.sig, |w|);
      PlacesTrue(w, rank, top, scope, exact, Kid(p, k), q);
    }
  }

  lemma ForestTrue(w: World, rank: seq<nat>, top: nat, scope: Table, exact: seq<bool>, order: seq<nat>, q: Place)
    requires Scoped(w, rank, top, scope, exact) && forall k: nat | k < |order| :: IsScopable(w, order[k])
    requires q in AllPlaces(TreesOf(w, rank, top, scope, exact, order))
    ensures TrueNode(w, rank, top, scope, exact, q.t)
  {
    hide TreeOf, Places;
    var forest := TreesOf(w, rank, top, scope, exact, order);
    var k: nat :| k < |forest| && q in Tree(forest, k);
    NodeSig(w, rank, top, scope, exact, order[k]);
    PlacesTrue(w, rank, top, scope, exact, Root(forest, k), q);
  }

  lemma NodeSig(w: World, rank: seq<nat>, top: nat, scope: Table, exact: seq<bool>, i: nat)
    requires Scoped(w, rank, top, scope, exact) && IsScopable(w, i)
    ensures var t := TreeOf(w, rank, top, scope, exact, i);
      t.sig == i && t.exact == exact[i] && (scope[i].Some? ==> t.scope == scope[i].value) && t.mult == w[i].mult
  {
  }
}
