/** A `lone` sig whose children need two atoms (crates/als-core/src/bounds_builder.rs): the walk raises its
    scope, no formula restores the multiplicity, and every instance has two atoms. */
module LoneScope {
  import opened Wrappers
  import opened Scopes
  import opened SigForest
  import opened Plain
  import opened SigBounds

  /** A leaf of exactly one atom. */
  predicate OneLeaf(t: Node) {
    t.scope == 1 && t.exact && !t.isAbstract && t.mult == Some(One) && t.kids == []
  }

  /** `lone sig a {} one sig b, c extends a {}`, with the scopes the derivation gives. */
  predicate LoneOverTwo(a: Node, b: Node, c: Node) {
    && a.scope == 1 && !a.exact && !a.isAbstract && a.mult == Some(Lone) && a.kids == [b, c]
    && OneLeaf(b) && OneLeaf(c)
    && a.sig != b.sig && a.sig != c.sig && b.sig != c.sig
  }

  lemma LeafCount(t: Node)
    requires OneLeaf(t)
    ensures KidsCount(t.kids) == 0 && Count(t, false) == 1 && FinalScope(t) == 1
  {
  }

  lemma PairCount(b: Node, c: Node)
    ensures KidsCount([b]) == Count(b, false) && KidsCount([b, c]) == Count(b, false) + Count(c, false)
  {
    hide Count;
    assert [b][..0] == [] && [b, c][..1] == [b];
    assert KidsCount([]) == 0;
    assert KidsCount([b]) == KidsCount([b][..0]) + Count(b, false);
    assert KidsCount([b, c]) == KidsCount([b, c][..1]) + Count(c, false);
  }

  lemma ParentCount(a: Node, b: Node, c: Node)
    requires LoneOverTwo(a, b, c)
    ensures KidsCount(a.kids) == 2 && Own(a, true) == 0 && Count(a, true) == 2 && FinalScope(a) == 2
    ensures KidsCount(a.kids[..0]) == 0 && KidsCount(a.kids[..1]) == 1
  {
    hide KidsCount;
    LeafCount(b);
    LeafCount(c);
    PairCount(b, c);
    assert a.kids[..1] == [b];
    assert KidsCount(a.kids[..0]) == 0 by { NoKids(a.kids[..0]); }
  }

  lemma NoKids(ts: seq<Node>)
    requires ts == []
    ensures KidsCount(ts) == 0
  {
  }

  function RootOf(a: Node): Place {
    Place(a, true, 0, {})
  }

  /** Every instance that keeps the final scopes gives the `lone` sig two atoms. */
  lemma LoneRaised(i: Inst, r: Rels, a: Node, b: Node, c: Node)
    requires LoneOverTwo(a, b, c) && ScopeKept(i, r, RootOf(a))
    ensures |Den(i, r, a)| == 2
  {
    hide Den, KidsCount;
    ParentCount(a, b, c);
    LoneExact(i, r, RootOf(a));
  }

  // ------------------------------------------------------------------ and there is such an instance

  lemma LeafKept(i: Inst, r: Rels, p: Place)
    requires OneLeaf(p.t) && !p.top && Value(i, map[], LeafRel(r, p.t)) == {[p.first]}
    ensures PlaceInside(i, r, p) && ScopeKept(i, r, p)
  {
    hide KidsCount, Value, FinalScope;
    LeafCount(p.t);
    assert Interval(p.first, 1) == {p.first};
    assert Lower(p) == {p.first} && Upper(p) == {p.first};
    assert Unary({p.first}) == {[p.first]};
    assert Den(i, r, p.t) == {[p.first]};
  }

  lemma KidsUnion(i: Inst, r: Rels, b: Node, c: Node)
    ensures KidsDen(i, r, [b, c]) == Den(i, r, b) + Den(i, r, c)
  {
    hide Den;
    assert [b][..0] == [] && [b, c][..1] == [b];
    assert KidsDen(i, r, []) == {};
    assert KidsDen(i, r, [b]) == KidsDen(i, r, [b][..0]) + Den(i, r, b);
    assert KidsDen(i, r, [b, c]) == KidsDen(i, r, [b, c][..1]) + Den(i, r, c);
  }

  lemma RootSets(a: Node, b: Node, c: Node)
    requires LoneOverTwo(a, b, c)
    ensures Unary(Lower(RootOf(a))) == {[0], [1]} && Upper(RootOf(a)) == {0, 1} && Floating(RootOf(a)) == {}
  {
    hide KidsCount, FinalScope, Own, Count;
    var p := RootOf(a);
    ParentCount(a, b, c);
    assert Interval(0, 2) == {0, 1};
    assert Lower(p) == {0, 1} && Upper(p) == {0, 1};
    assert Unary({0, 1}) == {[0], [1]};
  }

  lemma RootKept(i: Inst, r: Rels, a: Node, b: Node, c: Node)
    requires LoneOverTwo(a, b, c)
    requires Den(i, r, b) == {[0]} && Den(i, r, c) == {[1]} && Value(i, map[], RemainderRel(r, a)) == {}
    ensures PlaceInside(i, r, RootOf(a)) && ScopeKept(i, r, RootOf(a))
  {
    hide KidsCount, Value, FinalScope, KidsDen, Own, Count, Lower, Upper, Floating;
    ParentCount(a, b, c);
    RootSets(a, b, c);
    KidsUnion(i, r, b, c);
    assert Den(i, r, a) == {[0], [1]};
    assert Unary({}) == {} && Unary({0, 1}) == {[0], [1]};
    assert SiblingsApart(i, r, a) by { TwoApart(i, r, a, b, c); }
  }

  lemma TwoApart(i: Inst, r: Rels, a: Node, b: Node, c: Node)
    requires a.kids == [b, c] && Den(i, r, b) == {[0]} && Den(i, r, c) == {[1]}
    ensures SiblingsApart(i, r, a)
  {
    hide Den;
    forall j: nat, k: nat | j < k < |a.kids| ensures Den(i, r, a.kids[j]) * Den(i, r, a.kids[k]) == {} {
      assert a.kids[j] == b && a.kids[k] == c;
      assert [0] != [1];
    }
  }

  /** Each sig's own relation inside its bound and every scope kept, with two atoms in the `lone` sig. */
  lemma LoneInstance(a: Node, b: Node, c: Node) returns (i: Inst, r: Rels)
    requires LoneOverTwo(a, b, c)
    ensures forall q | q in Places(RootOf(a)) :: PlaceInside(i, r, q) && ScopeKept(i, r, q)
    ensures |Den(i, r, a)| == 2
  {
    hide KidsCount, ScopeKept, PlaceInside, Places;
    r := Rels(map[b.sig := 0, c.sig := 1], map[a.sig := 2]);
    i := Inst(map[0 := {[0]}, 1 := {[1]}, 2 := {}], 2);
    var p := RootOf(a);
    ParentCount(a, b, c);
    assert Kid(p, 0).first == 0 && Kid(p, 1).first == 1;
    LeafKept(i, r, Kid(p, 0));
    LeafKept(i, r, Kid(p, 1));
    RootKept(i, r, a, b, c);
    forall q | q in Places(p) ensures PlaceInside(i, r, q) && ScopeKept(i, r, q) {
      if q != p {
        var k := PlaceBelow(p, q);
        OnlyPlace(Kid(p, k), q);
        assert k == 0 || k == 1;
      }
    }
    LoneRaised(i, r, a, b, c);
  }

  lemma OnlyPlace(p: Place, q: Place)
    requires p.t.kids == [] && q in Places(p)
    ensures q == p
  {
  }
}
