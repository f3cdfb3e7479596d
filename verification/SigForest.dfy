/** The primitive-sig hierarchy as a forest, and where the universe walk puts each sig's atoms
    (crates/als-core/src/scope.rs, crates/als-core/src/bounds_builder.rs). */
module SigForest {
  import opened Wrappers
  import opened Scopes

  /** A scoped sig with its primitive children, in declaration order. */
  datatype Node = Node(sig: nat, scope: nat, exact: bool, isAbstract: bool, mult: Option<SigMult>, kids: seq<Node>)

  function Interval(first: nat, n: nat): (r: set<nat>)
    ensures |r| == n && forall a: nat :: a in r <==> first <= a < first + n
    decreases n
  {
    if n == 0 then {} else Interval(first, n - 1) + {first + n - 1}
  }

  // ------------------------------------------------------------------ what the walk counts

  /** The lower-bound atoms of a list of children. */
  function KidsCount(ts: seq<Node>): nat {
    if ts == [] then 0 else KidsCount(ts[..|ts| - 1]) + Count(ts[|ts| - 1], false)
  }

  /** The scope, silently raised to what the children already need. */
  function FinalScope(t: Node): (n: nat)
    ensures n >= t.scope
    decreases t, 0
  {
    var kids := KidsCount(t.kids);
    if t.scope < kids then kids else t.scope
  }

  /** The fresh atoms a sig mints: only an exact or top-level sig fills its scope. */
  function Own(t: Node, top: bool): nat
    decreases t, 0
  {
    var kids := KidsCount(t.kids);
    if (t.exact || top) && t.scope > kids then t.scope - kids else 0
  }

  /** The atoms minted in a sig's whole subtree. */
  function Count(t: Node, top: bool): nat
    decreases t, 1
  {
    KidsCount(t.kids) + Own(t, top)
  }

  function TopCount(ts: seq<Node>): nat {
    if ts == [] then 0 else TopCount(ts[..|ts| - 1]) + Count(ts[|ts| - 1], true)
  }

  // ------------------------------------------------------------------ where each sig stands

  /** A sig in the universe: its subtree's atoms start at `first`; `inherited` are the parent's atoms no
      sibling owns. */
  datatype Place = Place(t: Node, top: bool, first: nat, inherited: set<nat>)

  /** The atoms the sig must contain. */
  function LowerCount(p: Place): nat {
    if p.t.exact then Count(p.t, p.top) else KidsCount(p.t.kids)
  }

  function Lower(p: Place): (r: set<nat>)
    ensures |r| == LowerCount(p)
  {
    Interval(p.first, LowerCount(p))
  }

  /** The atoms the sig may contain: its subtree's, and the inherited ones while its scope is not full. */
  function Upper(p: Place): set<nat> {
    Interval(p.first, Count(p.t, p.top)) + if FinalScope(p.t) > LowerCount(p) then p.inherited else {}
  }

  /** The atoms no child must contain. */
  function Floating(p: Place): set<nat> {
    Upper(p) - Interval(p.first, KidsCount(p.t.kids))
  }

  function Kid(p: Place, k: nat): Place
    requires k < |p.t.kids|
  {
    Place(p.t.kids[k], false, p.first + KidsCount(p.t.kids[..k]), Floating(p))
  }

  function Root(forest: seq<Node>, k: nat): Place
    requires k < |forest|
  {
    Place(forest[k], true, TopCount(forest[..k]), {})
  }

  /** A sig and everything below it. */
  ghost function Places(p: Place): set<Place>
    decreases p.t
  {
    {p} + set k: nat, q | k < |p.t.kids| && q in Below(p, k) :: q
  }

  ghost function Below(p: Place, k: nat): set<Place>
    requires k < |p.t.kids|
    decreases p.t, 0
  {
    Places(Kid(p, k))
  }

  ghost function AllPlaces(forest: seq<Node>): set<Place> {
    set k: nat, q | k < |forest| && q in Tree(forest, k) :: q
  }

  ghost function Tree(forest: seq<Node>, k: nat): set<Place>
    requires k < |forest|
  {
    Places(Root(forest, k))
  }

  lemma PlaceBelow(p: Place, q: Place) returns (k: nat)
    requires q in Places(p) && q != p
    ensures k < |p.t.kids| && q in Below(p, k)
  {
    k :| k < |p.t.kids| && q in Below(p, k);
  }

  // ------------------------------------------------------------------ the run of each subtree

  lemma {:induction false} KidsUpto(ts: seq<Node>, k: nat)
    requires k <= |ts|
    ensures KidsCount(ts[..k]) <= KidsCount(ts)
    decreases |ts|
  {
    if k == |ts| {
      assert ts[..k] == ts;
    } else {
      assert ts[..|ts| - 1][..k] == ts[..k];
      KidsUpto(ts[..|ts| - 1], k);
    }
  }

  /** A child's run lies within its parent's children's run, after the earlier siblings'. */
  lemma KidRun(ts: seq<Node>, k: nat)
    requires k < |ts|
    ensures KidsCount(ts[..k + 1]) == KidsCount(ts[..k]) + Count(ts[k], false) <= KidsCount(ts)
  {
    assert ts[..k + 1][..k] == ts[..k] && ts[..k + 1][k] == ts[k];
    KidsUpto(ts, k + 1);
  }

  lemma SiblingRuns(ts: seq<Node>, j: nat, k: nat)
    requires j < k < |ts|
    ensures KidsCount(ts[..j]) + Count(ts[j], false) <= KidsCount(ts[..k])
  {
    KidRun(ts, j);
    assert ts[..k][..j + 1] == ts[..j + 1];
    KidsUpto(ts[..k], j + 1);
  }

  lemma {:induction false} TopUpto(ts: seq<Node>, k: nat)
    requires k <= |ts|
    ensures TopCount(ts[..k]) <= TopCount(ts)
    decreases |ts|
  {
    if k == |ts| {
      assert ts[..k] == ts;
    } else {
      assert ts[..|ts| - 1][..k] == ts[..k];
      TopUpto(ts[..|ts| - 1], k);
    }
  }

  lemma TopRun(ts: seq<Node>, k: nat)
    requires k < |ts|
    ensures TopCount(ts[..k + 1]) == TopCount(ts[..k]) + Count(ts[k], true) <= TopCount(ts)
  {
    assert ts[..k + 1][..k] == ts[..k] && ts[..k + 1][k] == ts[k];
    TopUpto(ts, k + 1);
  }

  /** What a place inherits lies outside its subtree's run. */
  predicate Clear(p: Place) {
    p.inherited !! Interval(p.first, Count(p.t, p.top)) && (p.top ==> p.inherited == {})
  }

  lemma KidClear(p: Place, k: nat)
    requires k < |p.t.kids|
    ensures Clear(Kid(p, k))
    ensures Interval(Kid(p, k).first, Count(p.t.kids[k], false)) <= Interval(p.first, KidsCount(p.t.kids))
  {
    KidRun(p.t.kids, k);
  }

  lemma {:induction false} PlacesClear(p: Place, q: Place)
    requires Clear(p) && q in Places(p)
    ensures Clear(q) && Interval(q.first, Count(q.t, q.top)) <= Interval(p.first, Count(p.t, p.top))
    decreases p.t
  {
    if q != p {
      var k: nat :| k < |p.t.kids| && q in Below(p, k);
      KidClear(p, k);
      PlacesClear(Kid(p, k), q);
    }
  }

  // ------------------------------------------------------------------ sizes of the bounds

  /** A sig below another top-level sig's: its lower bound is its subtree's whole run. */
  lemma LowerIsRun(p: Place)
    requires !p.top || p.t.exact
    ensures Lower(p) == Interval(p.first, Count(p.t, p.top))
  {
  }

  /** An exact sig's bounds are equal and hold exactly its scope; a top-level sig's upper bound does. */
  lemma BoundSizes(p: Place)
    requires Clear(p)
    ensures Lower(p) <= Upper(p) && LowerCount(p) <= FinalScope(p.t)
    ensures p.t.exact ==> Lower(p) == Upper(p) && |Upper(p)| == FinalScope(p.t)
    ensures p.top ==> |Upper(p)| == FinalScope(p.t)
    ensures FinalScope(p.t) == 0 ==> Upper(p) == {}
  {
    hide KidsCount, Interval;
    if p.t.exact || p.top { assert Count(p.t, p.top) == FinalScope(p.t); }
    if !p.t.exact && !p.top { assert Own(p.t, p.top) == 0; }
    assert Interval(p.first, LowerCount(p)) <= Interval(p.first, Count(p.t, p.top));
    if p.top { assert Upper(p) == Interval(p.first, Count(p.t, p.top)); }
    if p.t.exact { assert Upper(p) == Interval(p.first, Count(p.t, p.top)); }
  }

  /** A child's upper bound lies in its parent's. */
  lemma KidUpper(p: Place, k: nat)
    requires k < |p.t.kids|
    ensures Upper(Kid(p, k)) <= Upper(p)
  {
    KidClear(p, k);
    assert Interval(p.first, KidsCount(p.t.kids)) <= Interval(p.first, Count(p.t, p.top));
  }

  /** The children's lower bounds are disjoint and make up the start of the parent's run. */
  lemma KidLowers(p: Place, a: nat)
    ensures a in Interval(p.first, KidsCount(p.t.kids)) <==> exists k: nat :: k < |p.t.kids| && a in Lower(Kid(p, k))
    ensures forall j: nat, k: nat | j < k < |p.t.kids| :: a in Lower(Kid(p, j)) ==> a !in Lower(Kid(p, k))
  {
    forall k: nat | k < |p.t.kids| ensures Lower(Kid(p, k)) <= Interval(p.first, KidsCount(p.t.kids)) {
      KidClear(p, k);
      LowerIsRun(Kid(p, k));
    }
    if a in Interval(p.first, KidsCount(p.t.kids)) { KidOwning(p, p.t.kids, a); }
    forall j: nat, k: nat | j < k < |p.t.kids| && a in Lower(Kid(p, j)) ensures a !in Lower(Kid(p, k)) {
      SiblingRuns(p.t.kids, j, k);
      LowerIsRun(Kid(p, j));
      LowerIsRun(Kid(p, k));
    }
  }

  lemma {:induction false} KidOwning(p: Place, ts: seq<Node>, a: nat)
    requires ts <= p.t.kids && a in Interval(p.first, KidsCount(ts))
    ensures exists k: nat :: k < |p.t.kids| && a in Lower(Kid(p, k))
    decreases |ts|
  {
    if ts != [] {
      var k := |ts| - 1;
      assert ts[..k] == p.t.kids[..k] && ts[k] == p.t.kids[k];
      if a in Interval(p.first, KidsCount(ts[..k])) {
        KidOwning(p, ts[..k], a);
      } else {
        LowerIsRun(Kid(p, k));
        assert a in Lower(Kid(p, k));
      }
    }
  }

  // ------------------------------------------------------------------ the minted runs tile the universe

  /** The atoms a sig mints itself: they follow its children's. */
  function OwnRun(p: Place): set<nat> {
    Interval(p.first + KidsCount(p.t.kids), Own(p.t, p.top))
  }

  lemma {:induction false} OwnRunInside(p: Place, q: Place)
    requires q in Places(p)
    ensures OwnRun(q) <= Interval(p.first, Count(p.t, p.top))
    decreases p.t
  {
    if q != p {
      var k: nat :| k < |p.t.kids| && q in Below(p, k);
      KidClear(p, k);
      OwnRunInside(Kid(p, k), q);
    }
  }

  lemma {:induction false} EveryAtomMinted(p: Place, a: nat)
    requires a in Interval(p.first, Count(p.t, p.top))
    ensures exists q :: q in Places(p) && a in OwnRun(q)
    decreases p.t
  {
    if a in OwnRun(p) {
      assert p in Places(p);
    } else {
      KidHolding(p, p.t.kids, a);
      var k: nat :| k < |p.t.kids| && a in Interval(Kid(p, k).first, Count(p.t.kids[k], false));
      EveryAtomMinted(Kid(p, k), a);
      var q :| q in Places(Kid(p, k)) && a in OwnRun(q);
      assert q in Below(p, k);
    }
  }

  lemma {:induction false} KidHolding(p: Place, ts: seq<Node>, a: nat)
    requires ts <= p.t.kids && a in Interval(p.first, KidsCount(ts))
    ensures exists k: nat :: k < |p.t.kids| && a in Interval(Kid(p, k).first, Count(p.t.kids[k], false))
    decreases |ts|
  {
    if ts != [] {
      var k := |ts| - 1;
      assert ts[..k] == p.t.kids[..k] && ts[k] == p.t.kids[k];
      if a in Interval(p.first, KidsCount(ts[..k])) {
        KidHolding(p, ts[..k], a);
      } else {
        assert a in Interval(Kid(p, k).first, Count(p.t.kids[k], false));
      }
    }
  }

  lemma OwnRunBelow(p: Place, k: nat, q: Place)
    requires k < |p.t.kids| && q in Below(p, k)
    ensures OwnRun(q) !! OwnRun(p)
    ensures forall j: nat, q' | j < |p.t.kids| && j != k && q' in Below(p, j) :: OwnRun(q) !! OwnRun(q')
  {
    hide Count, KidsCount, Places;
    OwnRunInside(Kid(p, k), q);
    KidClear(p, k);
    forall j: nat, q' | j < |p.t.kids| && j != k && q' in Below(p, j) ensures OwnRun(q) !! OwnRun(q') {
      OwnRunInside(Kid(p, j), q');
      SiblingRuns(p.t.kids, if j < k then j else k, if j < k then k else j);
    }
  }

  lemma {:induction false} MintedOnce(p: Place, q: Place, q': Place, a: nat)
    requires q in Places(p) && q' in Places(p) && a in OwnRun(q) && a in OwnRun(q')
    ensures q == q'
    decreases p.t
  {
    hide OwnRun;
    if q != p {
      var k: nat :| k < |p.t.kids| && q in Below(p, k);
      OwnRunBelow(p, k, q);
      if q' != p {
        var k': nat :| k' < |p.t.kids| && q' in Below(p, k');
        if k == k' { MintedOnce(Kid(p, k), q, q', a); }
      }
    } else if q' != p {
      var k': nat :| k' < |p.t.kids| && q' in Below(p, k');
      OwnRunBelow(p, k', q');
    }
  }

  /** The minted runs partition the sig atoms: each atom is minted by exactly one sig. */
  lemma RunsTile(forest: seq<Node>, a: nat)
    ensures a < TopCount(forest) <==> exists q :: q in AllPlaces(forest) && a in OwnRun(q)
    ensures forall q, q' | q in AllPlaces(forest) && q' in AllPlaces(forest) && a in OwnRun(q) && a in OwnRun(q') :: q == q'
  {
    if a < TopCount(forest) {
      RootHolding(forest, forest, a);
      var k: nat :| k < |forest| && a in Interval(Root(forest, k).first, Count(forest[k], true));
      EveryAtomMinted(Root(forest, k), a);
      var q :| q in Places(Root(forest, k)) && a in OwnRun(q);
      assert q in Tree(forest, k);
    }
    forall q | q in AllPlaces(forest) && a in OwnRun(q) ensures a < TopCount(forest) {
      var k: nat :| k < |forest| && q in Tree(forest, k);
      OwnRunInside(Root(forest, k), q);
      TopRun(forest, k);
    }
    forall q, q' | q in AllPlaces(forest) && q' in AllPlaces(forest) && a in OwnRun(q) && a in OwnRun(q')
      ensures q == q'
    {
      var k: nat :| k < |forest| && q in Tree(forest, k);
      var k': nat :| k' < |forest| && q' in Tree(forest, k');
      OwnRunInside(Root(forest, k), q);
      OwnRunInside(Root(forest, k'), q');
      if k == k' {
        MintedOnce(Root(forest, k), q, q', a);
      } else {
        TreesApart(forest, if k < k' then k else k', if k < k' then k' else k);
      }
    }
  }

  lemma TreesApart(forest: seq<Node>, j: nat, k: nat)
    requires j < k < |forest|
    ensures TopCount(forest[..j]) + Count(forest[j], true) <= TopCount(forest[..k])
  {
    TopRun(forest, j);
    assert forest[..k][..j + 1] == forest[..j + 1];
    TopUpto(forest[..k], j + 1);
  }

  lemma {:induction false} RootHolding(forest: seq<Node>, ts: seq<Node>, a: nat)
    requires ts <= forest && a < TopCount(ts)
    ensures exists k: nat :: k < |forest| && a in Interval(Root(forest, k).first, Count(forest[k], true))
    decreases |ts|
  {
    if ts != [] {
      var k := |ts| - 1;
      assert ts[..k] == forest[..k] && ts[k] == forest[k];
      if a < TopCount(ts[..k]) {
        RootHolding(forest, ts[..k], a);
      } else {
        assert a in Interval(Root(forest, k).first, Count(forest[k], true));
      }
    }
  }

  // ------------------------------------------------------------------ the sigs of a tree

  function Sigs(t: Node): set<nat> {
    {t.sig} + KidSigs(t.kids)
  }

  function KidSigs(ts: seq<Node>): set<nat> {
    if ts == [] then {} else KidSigs(ts[..|ts| - 1]) + Sigs(ts[|ts| - 1])
  }

  /** No sig stands twice. */
  predicate Distinct(t: Node)
    decreases t, 1
  {
    t.sig !in KidSigs(t.kids) && AllDistinct(t.kids)
  }

  predicate AllDistinct(ts: seq<Node>)
    decreases ts, 0
  {
    ts != [] ==>
      AllDistinct(ts[..|ts| - 1]) && Distinct(ts[|ts| - 1]) && KidSigs(ts[..|ts| - 1]) !! Sigs(ts[|ts| - 1])
  }

  lemma {:induction false} KidSigsHave(ts: seq<Node>, k: nat)
    requires k < |ts|
    ensures Sigs(ts[k]) <= KidSigs(ts)
    ensures KidSigs(ts[..k]) <= KidSigs(ts[..k + 1]) <= KidSigs(ts) && KidSigs(ts[..k + 1]) == KidSigs(ts[..k]) + Sigs(ts[k])
    ensures AllDistinct(ts) ==> AllDistinct(ts[..k]) && Distinct(ts[k]) && KidSigs(ts[..k]) !! Sigs(ts[k])
    decreases |ts|
  {
    assert ts[..k + 1][..k] == ts[..k] && ts[..k + 1][k] == ts[k];
    if k == |ts| - 1 {
      assert ts[..k + 1] == ts;
    } else {
      var front := ts[..|ts| - 1];
      KidSigsHave(front, k);
      assert front[..k] == ts[..k] && front[..k + 1] == ts[..k + 1] && front[k] == ts[k];
    }
  }

  lemma {:induction false} PlaceSig(p: Place, q: Place)
    requires q in Places(p)
    ensures q.t.sig in Sigs(p.t)
    decreases p.t
  {
    if q != p {
      var k: nat :| k < |p.t.kids| && q in Below(p, k);
      PlaceSig(Kid(p, k), q);
      KidSigsHave(p.t.kids, k);
    }
  }

  lemma {:induction false} SigPlaced(p: Place, sig: nat) returns (q: Place)
    requires sig in Sigs(p.t)
    ensures q in Places(p) && q.t.sig == sig
    decreases p.t
  {
    if sig == p.t.sig {
      q := p;
    } else {
      var k := KidOfSig(p.t.kids, sig);
      q := SigPlaced(Kid(p, k), sig);
      assert q in Below(p, k);
    }
  }

  lemma {:induction false} KidOfSig(ts: seq<Node>, sig: nat) returns (k: nat)
    requires sig in KidSigs(ts)
    ensures k < |ts| && sig in Sigs(ts[k])
    decreases |ts|
  {
    if sig in Sigs(ts[|ts| - 1]) { k := |ts| - 1; } else { k := KidOfSig(ts[..|ts| - 1], sig); }
  }

  lemma ForestSigPlaced(forest: seq<Node>, sig: nat) returns (q: Place)
    requires sig in KidSigs(forest)
    ensures q in AllPlaces(forest) && q.t.sig == sig
  {
    var k := KidOfSig(forest, sig);
    q := SigPlaced(Root(forest, k), sig);
    assert q in Tree(forest, k);
  }

  /** In a tree without repeats a sig stands at one place. */
  lemma {:induction false} PlaceOfSig(p: Place, q: Place, q': Place)
    requires Distinct(p.t) && q in Places(p) && q' in Places(p) && q.t.sig == q'.t.sig
    ensures q == q'
    decreases p.t
  {
    if q != p && q' != p {
      var k: nat :| k < |p.t.kids| && q in Below(p, k);
      var k': nat :| k' < |p.t.kids| && q' in Below(p, k');
      PlaceSig(Kid(p, k), q);
      PlaceSig(Kid(p, k'), q');
      KidSigsHave(p.t.kids, k);
      KidSigsHave(p.t.kids, k');
      if k == k' { PlaceOfSig(Kid(p, k), q, q'); }
      else if k < k' { SigsBefore(p.t.kids, k, k'); }
      else { SigsBefore(p.t.kids, k', k); }
    } else if q != q' {
      var below := if q == p then q' else q;
      var k: nat :| k < |p.t.kids| && below in Below(p, k);
      PlaceSig(Kid(p, k), below);
      KidSigsHave(p.t.kids, k);
    }
  }

  lemma SigsBefore(ts: seq<Node>, j: nat, k: nat)
    requires j < k < |ts|
    ensures Sigs(ts[j]) <= KidSigs(ts[..k])
  {
    assert ts[..k][j] == ts[j];
    KidSigsHave(ts[..k], j);
  }

  lemma ForestPlaceOfSig(forest: seq<Node>, q: Place, q': Place)
    requires AllDistinct(forest) && q in AllPlaces(forest) && q' in AllPlaces(forest) && q.t.sig == q'.t.sig
    ensures q == q'
  {
    var k: nat :| k < |forest| && q in Tree(forest, k);
    var k': nat :| k' < |forest| && q' in Tree(forest, k');
    PlaceSig(Root(forest, k), q);
    PlaceSig(Root(forest, k'), q');
    KidSigsHave(forest, k);
    KidSigsHave(forest, k');
    if k == k' { PlaceOfSig(Root(forest, k), q, q'); }
    else if k < k' { SigsBefore(forest, k, k'); }
    else { SigsBefore(forest, k', k); }
  }
}
