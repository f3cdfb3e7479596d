/** The bounds build (crates/als-core/src/bounds_builder.rs): lower bounds bottom up, upper bounds top down,
    one relation per leaf and remainder, then the constraint formulas. */
module BoundsBuilding {
  import opened Wrappers
  import opened SigForest
  import opened UniverseMint

  type AtomSets = map<nat, set<nat>>

  /** Every sig of the forest is found under its own id, and every node found stands in the forest. */
  ghost predicate Indexed(forest: seq<Node>, nodes: seq<Option<Node>>) {
    && (forall q | q in AllPlaces(forest) :: q.t.sig < |nodes| && nodes[q.t.sig] == Some(q.t))
    && (forall x: nat | x < |nodes| && nodes[x].Some? :: Stands(forest, x))
  }

  ghost predicate Stands(forest: seq<Node>, x: nat) {
    exists q :: q in AllPlaces(forest) && q.t.sig == x
  }

  /** The scope phase's record of one sig. */
  ghost predicate Minting(scope: map<nat, nat>, minted: map<nat, Minted>, q: Place) {
    && q.t.sig in scope && scope[q.t.sig] == FinalScope(q.t)
    && (q.t.sig in minted <==> Own(q.t, q.top) > 0)
    && (q.t.sig in minted ==> minted[q.t.sig] == Minted(q.first + KidsCount(q.t.kids), Own(q.t, q.top)))
  }

  ghost predicate AllMinting(scope: map<nat, nat>, minted: map<nat, Minted>, p: Place) {
    forall q | q in Places(p) :: Minting(scope, minted, q)
  }

  lemma RecordedMinting(scope: map<nat, nat>, minted: map<nat, Minted>, atoms: seq<string>, q: Place)
    requires Recorded(scope, minted, atoms, q)
    ensures Minting(scope, minted, q)
  {
  }

  // ------------------------------------------------------------------ what the two passes leave

  ghost predicate HasLower(lower: AtomSets, q: Place) {
    q.t.sig in lower && lower[q.t.sig] == Lower(q)
  }

  /** After the bottom-up pass: the subtree's own run. */
  ghost predicate Seeded(upper: AtomSets, q: Place) {
    q.t.sig in upper && upper[q.t.sig] == Interval(q.first, Count(q.t, q.top))
  }

  ghost predicate HasUpper(upper: AtomSets, q: Place) {
    q.t.sig in upper && upper[q.t.sig] == Upper(q)
  }

  ghost predicate AllSeeded(lower: AtomSets, upper: AtomSets, p: Place) {
    forall q | q in Places(p) :: HasLower(lower, q) && Seeded(upper, q)
  }

  ghost predicate AllUpper(upper: AtomSets, p: Place) {
    forall q | q in Places(p) :: HasUpper(upper, q)
  }

  ghost predicate KidsSeeded(lower: AtomSets, upper: AtomSets, p: Place, from: nat, upto: nat) {
    forall k: nat | from <= k < upto && k < |p.t.kids| :: AllSeeded(lower, upper, Kid(p, k))
  }

  ghost predicate KidsUpper(upper: AtomSets, p: Place, upto: nat) {
    forall k: nat | k < upto && k < |p.t.kids| :: AllUpper(upper, Kid(p, k))
  }

  /** A child whose upper bound is final while its own children still wait. */
  ghost predicate Grown(lower: AtomSets, upper: AtomSets, q: Place) {
    HasUpper(upper, q) && KidsSeeded(lower, upper, q, 0, |q.t.kids|)
  }

  ghost predicate KidsGrown(lower: AtomSets, upper: AtomSets, p: Place, from: nat) {
    forall k: nat | from <= k < |p.t.kids| :: Grown(lower, upper, Kid(p, k))
  }

  /** In the middle of absorbing: the first `i` children have grown, the others wait. */
  ghost predicate GrownUpto(lower: AtomSets, upper: AtomSets, p: Place, i: nat) {
    && (forall k: nat | k < i && k < |p.t.kids| :: Grown(lower, upper, Kid(p, k)))
    && KidsSeeded(lower, upper, p, i, |p.t.kids|)
  }

  lemma SeededKept(lower: AtomSets, upper: AtomSets, lower': AtomSets, upper': AtomSets, p: Place, touched: set<nat>)
    requires AllSeeded(lower, upper, p) && SameOutside(lower, lower', touched) && SameOutside(upper, upper', touched)
    requires Sigs(p.t) !! touched
    ensures AllSeeded(lower', upper', p)
  {
    forall q | q in Places(p) ensures HasLower(lower', q) && Seeded(upper', q) { PlaceSig(p, q); }
  }

  lemma UpperKept(upper: AtomSets, upper': AtomSets, p: Place, touched: set<nat>)
    requires AllUpper(upper, p) && SameOutside(upper, upper', touched) && Sigs(p.t) !! touched
    ensures AllUpper(upper', p)
  {
    forall q | q in Places(p) ensures HasUpper(upper', q) { PlaceSig(p, q); }
  }

  /** The parent's atoms no child must contain. */
  method FloatingAtoms(lower: AtomSets, upper: AtomSets, t: Node, ghost p: Place) returns (floating: set<nat>)
    requires p.t == t && HasUpper(upper, p) && forall k: nat | k < |t.kids| :: HasLower(lower, Kid(p, k))
    ensures floating == Floating(p)
  {
    hide Lower, Upper, KidsCount, Interval;
    floating := upper[t.sig];
    var i := 0;
    while i < |t.kids|
      invariant i <= |t.kids|
      invariant forall a: nat :: a in floating <==> a in Upper(p) && forall k: nat | k < i :: a !in Lower(Kid(p, k))
    {
      assert HasLower(lower, Kid(p, i));
      floating := floating - lower[t.kids[i].sig];
      i := i + 1;
    }
    forall a: nat ensures a in floating <==> a in Floating(p) { KidLowers(p, a); }
  }

  class BoundsBuilder {
    const nodes: seq<Option<Node>>
    const scope: map<nat, nat>
    const minted: map<nat, Minted>
    var lower: AtomSets
    var upper: AtomSets

    constructor (index: seq<Option<Node>>, scopes: map<nat, nat>, runs: map<nat, Minted>)
      ensures nodes == index && scope == scopes && minted == runs && lower == map[] && upper == map[]
    {
      nodes, scope, minted, lower, upper := index, scopes, runs, map[], map[];
    }

    method MintedAtoms(sig: nat, ghost q: Place) returns (s: set<nat>)
      requires Minting(scope, minted, q) && q.t.sig == sig
      ensures s == OwnRun(q)
    {
      s := {};
      if sig in minted {
        var m := minted[sig];
        var k := 0;
        while k < m.count
          invariant k <= m.count && forall a: nat :: a in s <==> m.first <= a < m.first + k
        {
          s := s + {m.first + k};
          k := k + 1;
        }
      }
    }

    /** The lower bound of a sig, its children's first; the upper bound starts as that plus the minted atoms. */
    method LowerOf(t: Node, ghost p: Place) returns (low: set<nat>)
      requires p.t == t && Distinct(t) && AllMinting(scope, minted, p)
      modifies this
      ensures low == Lower(p) && AllSeeded(lower, upper, p)
      ensures SameOutside(old(lower), lower, Sigs(t)) && SameOutside(old(upper), upper, Sigs(t))
      decreases t, 1
    {
      hide KidsCount, Own, OwnRun, Count, Lower, KidSigs, SameOutside;
      hide AllSeeded, AllMinting, KidsSeeded, Distinct, Minting, Interval;
      ghost var lower0, upper0 := lower, upper;
      low := LowerOfKids(t, p);
      KidMinting(scope, minted, p, 0);
      var own := MintedAtoms(t.sig, p);
      OwnJoinsKids(p);
      ghost var l, u := lower, upper;
      var up := low + own;
      if t.exact { low := low + own; }
      lower := lower[t.sig := low];
      upper := upper[t.sig := up];
      TreeSeeded(lower0, upper0, l, u, lower, upper, p);
    }

    method LowerOfKids(t: Node, ghost p: Place) returns (low: set<nat>)
      requires p.t == t && Distinct(t) && AllMinting(scope, minted, p)
      modifies this
      ensures low == Interval(p.first, KidsCount(t.kids)) && KidsSeeded(lower, upper, p, 0, |t.kids|)
      ensures SameOutside(old(lower), lower, KidSigs(t.kids)) && SameOutside(old(upper), upper, KidSigs(t.kids))
      decreases t, 0
    {
      hide AllMinting, KidsCount, KidSigs, Sigs, SameOutside, AllSeeded, KidsSeeded, Distinct, Interval, Lower, Count;
      low := {};
      ghost var lower0, upper0 := lower, upper;
      NothingSeeded(lower, upper, p);
      var i := 0;
      while i < |t.kids|
        invariant i <= |t.kids| && low == Interval(p.first, KidsCount(t.kids[..i]))
        invariant KidsSeeded(lower, upper, p, 0, i)
        invariant SameOutside(lower0, lower, KidSigs(t.kids[..i])) && SameOutside(upper0, upper, KidSigs(t.kids[..i]))
      {
        ghost var l, u := lower, upper;
        UniverseMint.KidInside(t, i);
        KidMinting(scope, minted, p, i);
        var kid := LowerOf(t.kids[i], Kid(p, i));
        KidLowered(lower0, upper0, l, u, lower, upper, p, i);
        low := low + kid;
        i := i + 1;
      }
      assert t.kids[..i] == t.kids;
    }

    /** Gives each child that can still grow the atoms no child must contain, then goes down. */
    method GrowChildren(t: Node, ghost p: Place)
      requires p.t == t && Distinct(t) && AllMinting(scope, minted, p)
      requires HasUpper(upper, p) && KidsSeeded(lower, upper, p, 0, |t.kids|)
      modifies this`upper
      ensures AllUpper(upper, p) && SameOutside(old(upper), upper, KidSigs(t.kids))
      decreases t
    {
      hide AllMinting, Places, KidsCount, KidSigs, SameOutside, AllSeeded, KidsSeeded, Distinct, Minting, Interval;
      hide AllUpper, Upper, Lower, HasLower, HasUpper, KidsUpper, KidsGrown, Floating, LowerCount;
      ghost var upper0 := upper;
      KidsLower(lower, upper, p);
      var floating := FloatingAtoms(lower, upper, t, p);
      Absorb(t, floating, p);
      ghost var grown := upper;
      NothingUpper(upper, p);
      var i := 0;
      while i < |t.kids|
        invariant i <= |t.kids| && KidsUpper(upper, p, i) && KidsGrown(lower, upper, p, i)
        invariant SameOutside(grown, upper, KidSigs(t.kids[..i]))
      {
        ghost var u := upper;
        UniverseMint.KidInside(t, i);
        KidMinting(scope, minted, p, i);
        GrownKid(lower, u, p, i);
        GrowChildren(t.kids[i], Kid(p, i));
        KidGrown(lower, u, upper, p, i);
        GrowOutside(grown, u, upper, KidSigs(t.kids[..i]), Sigs(t.kids[i]));
        i := i + 1;
      }
      assert t.kids[..i] == t.kids;
      TreeUpper(upper0, grown, upper, p);
    }

    /** The children's upper bounds become final before any grandchild is visited. */
    method Absorb(t: Node, floating: set<nat>, ghost p: Place)
      requires p.t == t && Distinct(t) && floating == Floating(p) && KidsSeeded(lower, upper, p, 0, |t.kids|)
      requires AllMinting(scope, minted, p)
      modifies this`upper
      ensures KidsGrown(lower, upper, p, 0) && SameOutside(old(upper), upper, KidSigs(t.kids))
    {
      hide AllMinting, Places, KidsCount, KidSigs, SameOutside, AllSeeded, KidsSeeded, Distinct, Minting, Interval, Upper;
      hide Lower, HasLower, HasUpper, Seeded, Floating, Grown, GrownUpto, KidsGrown, LowerCount, FinalScope;
      var i := 0;
      ghost var upper0 := upper;
      AllWaiting(lower, upper, p);
      while i < |t.kids|
          invariant i <= |t.kids| && GrownUpto(lower, upper, p, i)
        invariant SameOutside(upper0, upper, KidSigs(t.kids[..i]))
      {
        ghost var u := upper;
        UniverseMint.KidInside(t, i);
        WaitingKid(scope, minted, lower, upper, p, i);
        var kid := t.kids[i];
        if scope[kid.sig] > |lower[kid.sig]| {
          upper := upper[kid.sig := upper[kid.sig] + floating];
        }
        OneGrown(lower, u, upper, p, i);
        GrowOutside(upper0, u, upper, KidSigs(t.kids[..i]), Sigs(t.kids[i]));
        i := i + 1;
      }
      assert t.kids[..i] == t.kids;
      AllGrown(lower, upper, p);
    }

    /** Both passes over every top-level sig: each sig of the forest ends with its two bounds. */
    method ComputeAtomBounds(forest: seq<Node>)
      requires AllDistinct(forest) && forall q | q in AllPlaces(forest) :: Minting(scope, minted, q)
      modifies this
      ensures forall q | q in AllPlaces(forest) :: HasLower(lower, q) && HasUpper(upper, q)
    {
      hide AllPlaces, Minting, AllMinting, AllSeeded, AllUpper, AllDistinct, SameOutside, KidSigs;
      hide Sigs, RootsSeeded, RootsUpper, KidsSeeded, HasUpper, HasLower, Lower;
      RootsMinting(scope, minted, forest);
      NoRoots(lower, upper, forest);
      var i := 0;
      while i < |forest|
        invariant i <= |forest| && RootsSeeded(lower, upper, forest, 0, i)
      {
        ghost var l, u := lower, upper;
        RootParts(forest, i);
        var _ := LowerOf(forest[i], Root(forest, i));
        RootSeeded(l, u, lower, upper, forest, i);
        i := i + 1;
      }
      ghost var lower0 := lower;
      NoRoots(lower, upper, forest);
      i := 0;
      while i < |forest|
        invariant i <= |forest| && lower == lower0 && RootsUpper(upper, forest, i) && RootsSeeded(lower, upper, forest, i, |forest|)
      {
        ghost var u := upper;
        RootParts(forest, i);
        RootReady(lower, upper, forest, i);
        GrowChildren(forest[i], Root(forest, i));
        RootGrown(lower, u, upper, forest, i);
        i := i + 1;
      }
      ForestBounded(lower0, lower, upper, forest);
    }
  }

  // ------------------------------------------------------------------ bookkeeping of the two passes

  lemma InOwnPlaces(p: Place)
    ensures p in Places(p)
  {
  }

  lemma KidMinting(scope: map<nat, nat>, minted: map<nat, Minted>, p: Place, k: nat)
    requires AllMinting(scope, minted, p)
    ensures Minting(scope, minted, p)
    ensures k < |p.t.kids| ==> AllMinting(scope, minted, Kid(p, k))
  {
    InOwnPlaces(p);
    if k < |p.t.kids| { KidPlaces(p, k); }
  }

  lemma OwnJoinsKids(p: Place)
    ensures Interval(p.first, KidsCount(p.t.kids)) + OwnRun(p) == Interval(p.first, Count(p.t, p.top))
    ensures Lower(p) == if p.t.exact then Interval(p.first, Count(p.t, p.top)) else Interval(p.first, KidsCount(p.t.kids))
  {
    JoinRuns(p.first, KidsCount(p.t.kids), Own(p.t, p.top));
  }

  /** One more child's run, and its subtree seeded. */
  lemma KidLowered(lower0: AtomSets, upper0: AtomSets, l: AtomSets, u: AtomSets, l': AtomSets, u': AtomSets, p: Place, i: nat)
    requires i < |p.t.kids| && Distinct(p.t) && KidsSeeded(l, u, p, 0, i) && AllSeeded(l', u', Kid(p, i))
    requires SameOutside(lower0, l, KidSigs(p.t.kids[..i])) && SameOutside(upper0, u, KidSigs(p.t.kids[..i]))
    requires SameOutside(l, l', Sigs(p.t.kids[i])) && SameOutside(u, u', Sigs(p.t.kids[i]))
    ensures KidsSeeded(l', u', p, 0, i + 1)
    ensures SameOutside(lower0, l', KidSigs(p.t.kids[..i + 1])) && SameOutside(upper0, u', KidSigs(p.t.kids[..i + 1]))
    ensures Interval(p.first, KidsCount(p.t.kids[..i])) + Lower(Kid(p, i)) == Interval(p.first, KidsCount(p.t.kids[..i + 1]))
  {
    hide SameOutside, AllSeeded, KidsSeeded, Lower, KidSigs, Sigs, KidsCount, Count, Interval;
    UniverseMint.KidInside(p.t, i);
    LowerIsRun(Kid(p, i));
    JoinRuns(p.first, KidsCount(p.t.kids[..i]), Count(p.t.kids[i], false));
    KidSeeded(l, u, l', u', p, i);
    GrowOutside(lower0, l, l', KidSigs(p.t.kids[..i]), Sigs(p.t.kids[i]));
    GrowOutside(upper0, u, u', KidSigs(p.t.kids[..i]), Sigs(p.t.kids[i]));
  }

  lemma KidPlaces(p: Place, k: nat)
    requires k < |p.t.kids|
    ensures Places(Kid(p, k)) <= Places(p)
  {
    forall q | q in Places(Kid(p, k)) ensures q in Places(p) { assert q in Below(p, k); }
  }

  lemma JoinRuns(first: nat, m: nat, n: nat)
    ensures Interval(first, m) + Interval(first + m, n) == Interval(first, m + n)
  {
  }

  lemma NothingSeeded(lower: AtomSets, upper: AtomSets, p: Place)
    ensures KidsSeeded(lower, upper, p, 0, 0) && KidsCount(p.t.kids[..0]) == 0 && Interval(p.first, 0) == {}
    ensures SameOutside(lower, lower, KidSigs(p.t.kids[..0])) && SameOutside(upper, upper, KidSigs(p.t.kids[..0]))
  {
  }

  lemma KidSeeded(l: AtomSets, u: AtomSets, l': AtomSets, u': AtomSets, p: Place, i: nat)
    requires i < |p.t.kids| && Distinct(p.t) && KidsSeeded(l, u, p, 0, i) && AllSeeded(l', u', Kid(p, i))
    requires SameOutside(l, l', Sigs(p.t.kids[i])) && SameOutside(u, u', Sigs(p.t.kids[i]))
    ensures KidsSeeded(l', u', p, 0, i + 1)
  {
    hide AllSeeded, SameOutside, KidSigs, Sigs;
    KidSigsHave(p.t.kids, i);
    forall k: nat | k < i ensures AllSeeded(l', u', Kid(p, k)) {
      SigsBefore(p.t.kids, k, i);
      SeededKept(l, u, l', u', Kid(p, k), Sigs(p.t.kids[i]));
    }
  }

  lemma TreeSeeded(lower0: AtomSets, upper0: AtomSets, l: AtomSets, u: AtomSets, l': AtomSets, u': AtomSets, p: Place)
    requires Distinct(p.t) && KidsSeeded(l, u, p, 0, |p.t.kids|)
    requires SameOutside(lower0, l, KidSigs(p.t.kids)) && SameOutside(upper0, u, KidSigs(p.t.kids))
    requires l' == l[p.t.sig := Lower(p)] && u' == u[p.t.sig := Interval(p.first, Count(p.t, p.top))]
    ensures AllSeeded(l', u', p)
    ensures SameOutside(lower0, l', Sigs(p.t)) && SameOutside(upper0, u', Sigs(p.t))
  {
    hide Lower, Interval, Count, KidSigs, Places;
    forall q | q in Places(p) ensures HasLower(l', q) && Seeded(u', q) {
      if q != p {
        var k := PlaceBelow(p, q);
        KidSigsHave(p.t.kids, k);
        assert AllSeeded(l, u, Kid(p, k));
        SeededKept(l, u, l', u', Kid(p, k), {p.t.sig});
      }
    }
  }

  lemma KidsLower(lower: AtomSets, upper: AtomSets, p: Place)
    requires KidsSeeded(lower, upper, p, 0, |p.t.kids|)
    ensures forall k: nat | k < |p.t.kids| :: HasLower(lower, Kid(p, k))
  {
    forall k: nat | k < |p.t.kids| ensures HasLower(lower, Kid(p, k)) {
      assert AllSeeded(lower, upper, Kid(p, k)) && Kid(p, k) in Places(Kid(p, k));
    }
  }

  lemma AllWaiting(lower: AtomSets, upper: AtomSets, p: Place)
    requires KidsSeeded(lower, upper, p, 0, |p.t.kids|)
    ensures GrownUpto(lower, upper, p, 0) && SameOutside(upper, upper, KidSigs(p.t.kids[..0]))
  {
  }

  lemma AllGrown(lower: AtomSets, upper: AtomSets, p: Place)
    requires GrownUpto(lower, upper, p, |p.t.kids|)
    ensures KidsGrown(lower, upper, p, 0)
  {
  }

  /** What a waiting child's entries say. */
  lemma WaitingKid(scope: map<nat, nat>, minted: map<nat, Minted>, lower: AtomSets, upper: AtomSets, p: Place, i: nat)
    requires i < |p.t.kids| && GrownUpto(lower, upper, p, i) && AllMinting(scope, minted, p)
    ensures var kid := p.t.kids[i];
      && kid.sig in scope && scope[kid.sig] == FinalScope(kid)
      && kid.sig in lower && lower[kid.sig] == Lower(Kid(p, i))
      && kid.sig in upper
  {
    KidPlaces(p, i);
    assert AllSeeded(lower, upper, Kid(p, i)) && Kid(p, i) in Places(Kid(p, i));
    assert HasLower(lower, Kid(p, i)) && Seeded(upper, Kid(p, i)) && Minting(scope, minted, Kid(p, i));
  }

  lemma GrownKept(lower: AtomSets, upper: AtomSets, upper': AtomSets, q: Place, touched: set<nat>)
    requires Grown(lower, upper, q) && SameOutside(upper, upper', touched) && Sigs(q.t) !! touched
    ensures Grown(lower, upper', q)
  {
    hide AllSeeded, KidSigs;
    assert q.t.sig in Sigs(q.t);
    forall k: nat | k < |q.t.kids| ensures AllSeeded(lower, upper', Kid(q, k)) {
      KidSigsHave(q.t.kids, k);
      SameAsItself(lower);
      SeededKept(lower, upper, lower, upper', Kid(q, k), touched);
    }
  }

  lemma OneGrown(lower: AtomSets, u: AtomSets, u': AtomSets, p: Place, i: nat)
    requires i < |p.t.kids| && Distinct(p.t) && GrownUpto(lower, u, p, i) && p.t.kids[i].sig in u
    requires var kid := p.t.kids[i];
      u' == if FinalScope(kid) > |Lower(Kid(p, i))| then u[kid.sig := u[kid.sig] + Floating(p)] else u
    ensures GrownUpto(lower, u', p, i + 1) && SameOutside(u, u', Sigs(p.t.kids[i]))
  {
    hide KidSigs, Interval, Count, Floating, FinalScope, AllSeeded, Lower, Places;
    var kid, q := p.t.kids[i], Kid(p, i);
    assert kid.sig in Sigs(kid);
    KidSigsHave(p.t.kids, i);
    forall k: nat | k < i ensures Grown(lower, u', Kid(p, k)) {
      SigsBefore(p.t.kids, k, i);
      GrownKept(lower, u, u', Kid(p, k), Sigs(kid));
    }
    forall k: nat | i < k < |p.t.kids| ensures AllSeeded(lower, u', Kid(p, k)) {
      KidSigsHave(p.t.kids, k);
      SigsBefore(p.t.kids, i, k);
      SameAsItself(lower);
      SeededKept(lower, u, lower, u', Kid(p, k), Sigs(kid));
    }
    assert AllSeeded(lower, u, q);
    InOwnPlaces(q);
    SelfGrown(lower, u, u', q, Floating(p));
  }

  /** The child's own entry becomes final; below it nothing changes. */
  lemma SelfGrown(lower: AtomSets, u: AtomSets, u': AtomSets, q: Place, floating: set<nat>)
    requires Distinct(q.t) && AllSeeded(lower, u, q) && q.inherited == floating && q.t.sig in u
    requires u' == if FinalScope(q.t) > |Lower(q)| then u[q.t.sig := u[q.t.sig] + floating] else u
    ensures Grown(lower, u', q)
  {
    hide Interval, Count, FinalScope, KidSigs;
    assert q in Places(q);
    assert HasLower(lower, q) && Seeded(u, q);
    forall k: nat | k < |q.t.kids| ensures AllSeeded(lower, u', Kid(q, k)) {
      KidPlaces(q, k);
      assert AllSeeded(lower, u, Kid(q, k));
      KidSigsHave(q.t.kids, k);
      SameAsItself(lower);
      assert SameOutside(u, u', {q.t.sig});
      SeededKept(lower, u, lower, u', Kid(q, k), {q.t.sig});
    }
  }

  lemma NothingUpper(upper: AtomSets, p: Place)
    ensures KidsUpper(upper, p, 0) && SameOutside(upper, upper, KidSigs(p.t.kids[..0]))
  {
  }

  lemma GrownKid(lower: AtomSets, upper: AtomSets, p: Place, i: nat)
    requires i < |p.t.kids| && KidsGrown(lower, upper, p, i)
    ensures HasUpper(upper, Kid(p, i)) && KidsSeeded(lower, upper, Kid(p, i), 0, |p.t.kids[i].kids|)
  {
    assert Grown(lower, upper, Kid(p, i));
  }

  lemma KidGrown(lower: AtomSets, u: AtomSets, u': AtomSets, p: Place, i: nat)
    requires i < |p.t.kids| && Distinct(p.t) && KidsUpper(u, p, i) && KidsGrown(lower, u, p, i)
    requires AllUpper(u', Kid(p, i)) && SameOutside(u, u', KidSigs(p.t.kids[i].kids))
    ensures KidsUpper(u', p, i + 1) && KidsGrown(lower, u', p, i + 1)
    ensures SameOutside(u, u', Sigs(p.t.kids[i]))
  {
    hide AllUpper, Grown, KidSigs;
    KidSigsHave(p.t.kids, i);
    assert KidSigs(p.t.kids[i].kids) <= Sigs(p.t.kids[i]);
    forall k: nat | k < i ensures AllUpper(u', Kid(p, k)) {
      SigsBefore(p.t.kids, k, i);
      UpperKept(u, u', Kid(p, k), KidSigs(p.t.kids[i].kids));
    }
    forall k: nat | i < k < |p.t.kids| ensures Grown(lower, u', Kid(p, k)) {
      KidSigsHave(p.t.kids, k);
      SigsBefore(p.t.kids, i, k);
      GrownKept(lower, u, u', Kid(p, k), KidSigs(p.t.kids[i].kids));
    }
  }

  lemma TreeUpper(upper0: AtomSets, grown: AtomSets, upper: AtomSets, p: Place)
    requires Distinct(p.t) && HasUpper(upper0, p) && KidsUpper(upper, p, |p.t.kids|)
    requires SameOutside(upper0, grown, KidSigs(p.t.kids)) && SameOutside(grown, upper, KidSigs(p.t.kids))
    ensures AllUpper(upper, p) && SameOutside(upper0, upper, KidSigs(p.t.kids))
  {
    hide KidSigs, Upper, Places;
    forall q | q in Places(p) ensures HasUpper(upper, q) {
      if q != p {
        var k := PlaceBelow(p, q);
        assert AllUpper(upper, Kid(p, k));
      }
    }
  }

  // ------------------------------------------------------------------ the roots

  /** The roots from `from` are seeded up to `upto`; every lower bound is in place. */
  ghost predicate RootsSeeded(lower: AtomSets, upper: AtomSets, forest: seq<Node>, from: nat, upto: nat) {
    && (forall k: nat | from <= k < upto && k < |forest| :: AllSeeded(lower, upper, Root(forest, k)))
    && (forall k: nat, q | k < upto && k < |forest| && q in Tree(forest, k) :: HasLower(lower, q))
  }

  ghost predicate RootsUpper(upper: AtomSets, forest: seq<Node>, upto: nat) {
    forall k: nat | k < upto && k < |forest| :: AllUpper(upper, Root(forest, k))
  }

  lemma NoRoots(lower: AtomSets, upper: AtomSets, forest: seq<Node>)
    ensures RootsSeeded(lower, upper, forest, 0, 0) && RootsUpper(upper, forest, 0)
  {
  }

  lemma RootsMinting(scope: map<nat, nat>, minted: map<nat, Minted>, forest: seq<Node>)
    requires forall q | q in AllPlaces(forest) :: Minting(scope, minted, q)
    ensures forall k: nat | k < |forest| :: AllMinting(scope, minted, Root(forest, k))
  {
    hide Minting, Places;
    forall k: nat | k < |forest| ensures AllMinting(scope, minted, Root(forest, k)) {
      forall q | q in Places(Root(forest, k)) ensures Minting(scope, minted, q) { assert q in Tree(forest, k); }
    }
  }

  lemma RootParts(forest: seq<Node>, i: nat)
    requires i < |forest| && AllDistinct(forest)
    ensures Distinct(forest[i])
  {
    KidSigsHave(forest, i);
  }

  lemma RootSeeded(l: AtomSets, u: AtomSets, l': AtomSets, u': AtomSets, forest: seq<Node>, i: nat)
    requires i < |forest| && AllDistinct(forest) && RootsSeeded(l, u, forest, 0, i) && AllSeeded(l', u', Root(forest, i))
    requires SameOutside(l, l', Sigs(forest[i])) && SameOutside(u, u', Sigs(forest[i]))
    ensures RootsSeeded(l', u', forest, 0, i + 1)
  {
    hide SameOutside, KidSigs, Sigs, AllSeeded, HasLower, Places;
    KidSigsHave(forest, i);
    forall k: nat | k < i ensures AllSeeded(l', u', Root(forest, k)) {
      SigsBefore(forest, k, i);
      SeededKept(l, u, l', u', Root(forest, k), Sigs(forest[i]));
    }
    forall k: nat, q | k < i + 1 && q in Tree(forest, k) ensures HasLower(l', q) {
      assert AllSeeded(l', u', Root(forest, k));
      SeededLower(l', u', Root(forest, k), q);
    }
  }

  lemma SeededLower(lower: AtomSets, upper: AtomSets, p: Place, q: Place)
    requires AllSeeded(lower, upper, p) && q in Places(p)
    ensures HasLower(lower, q) && Seeded(upper, q)
  {
  }

  /** A seeded root already has its final upper bound: it inherits nothing. */
  lemma RootReady(lower: AtomSets, upper: AtomSets, forest: seq<Node>, i: nat)
    requires i < |forest| && RootsSeeded(lower, upper, forest, i, |forest|)
    ensures HasUpper(upper, Root(forest, i)) && KidsSeeded(lower, upper, Root(forest, i), 0, |forest[i].kids|)
  {
    var p := Root(forest, i);
    assert AllSeeded(lower, upper, p);
    InOwnPlaces(p);
    SeededLower(lower, upper, p, p);
    assert Upper(p) == Interval(p.first, Count(p.t, p.top));
    forall k: nat | k < |p.t.kids| ensures AllSeeded(lower, upper, Kid(p, k)) { KidPlaces(p, k); }
  }

  lemma RootGrown(lower: AtomSets, u: AtomSets, u': AtomSets, forest: seq<Node>, i: nat)
    requires i < |forest| && AllDistinct(forest) && RootsUpper(u, forest, i) && RootsSeeded(lower, u, forest, i, |forest|)
    requires AllUpper(u', Root(forest, i)) && SameOutside(u, u', KidSigs(forest[i].kids))
    ensures RootsUpper(u', forest, i + 1) && RootsSeeded(lower, u', forest, i + 1, |forest|)
  {
    hide SameOutside, AllSeeded, AllUpper, HasLower, Places, KidSigs;
    KidSigsHave(forest, i);
    assert KidSigs(forest[i].kids) <= Sigs(forest[i]);
    forall k: nat | k < i ensures AllUpper(u', Root(forest, k)) {
      SigsBefore(forest, k, i);
      UpperKept(u, u', Root(forest, k), KidSigs(forest[i].kids));
    }
    forall k: nat | i < k < |forest| ensures AllSeeded(lower, u', Root(forest, k)) {
      KidSigsHave(forest, k);
      SigsBefore(forest, i, k);
      SameAsItself(lower);
      Widened(lower, KidSigs(forest[i].kids));
      SeededKept(lower, u, lower, u', Root(forest, k), KidSigs(forest[i].kids));
    }
  }

  lemma Widened<V>(m: map<nat, V>, touched: set<nat>)
    ensures SameOutside(m, m, touched)
  {
  }

  lemma ForestBounded(lower0: AtomSets, lower: AtomSets, upper: AtomSets, forest: seq<Node>)
    requires lower0 == lower && RootsUpper(upper, forest, |forest|) && RootsSeeded(lower, upper, forest, |forest|, |forest|)
    ensures forall q | q in AllPlaces(forest) :: HasLower(lower, q) && HasUpper(upper, q)
  {
    hide HasLower, HasUpper, Places;
    forall q | q in AllPlaces(forest) ensures HasLower(lower, q) && HasUpper(upper, q) {
      var k: nat :| k < |forest| && q in Tree(forest, k);
      assert AllUpper(upper, Root(forest, k));
    }
  }
}
